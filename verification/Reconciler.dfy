/** The diff-and-apply engine of the workflow generator. */
module Reconciler {
  import opened Options
  import opened CanonicalJson

  const HTTP_TOOL_TYPE := "n8n-nodes-base.httpRequestTool"
  const AGENT_NODE_NAME := "AI Agent"
  const MAX_OPERATIONS_PER_CALL := 100

  // ---------- The catalogue ----------

  datatype Tier = Core | Extended | FlowOnly

  datatype Tool = Tool(name: string, tier: Tier, status: string, surface: string)

  predicate IsModelFacing(tool: Tool) {
    && tool.tier != FlowOnly
    && tool.surface != "webhook_command" && tool.surface != "payment_public"
    && !("identity_" <= tool.name)
    && tool.status == "available"
  }

  function SelectMcpTools(tools: seq<Tool>): seq<Tool> {
    if tools == [] then []
    else (if IsModelFacing(tools[0]) then [tools[0]] else []) + SelectMcpTools(tools[1..])
  }

  // ---------- Nodes and operations ----------

  datatype EmittedNode = EmittedNode(name: string, parameters: Value)

  datatype ExistingNode = ExistingNode(name: string, typ: Option<string>, parameters: Option<Value>)

  datatype Operation =
    | RemoveNode(name: string)
    | UpdateNodeParameters(name: string, parameters: Value)
    | AddNode(name: string, parameters: Value)  // always of the HTTP tool type
    | AddConnection(source: string)             // always to the agent

  /** One generated node per tool; what the catalogue row turns into is a parameter. */
  function BuildNodes(tools: seq<Tool>, parametersOf: Tool -> Value): seq<EmittedNode> {
    seq(|tools|, i requires 0 <= i < |tools| => EmittedNode(tools[i].name, parametersOf(tools[i])))
  }

  function NodeNames(nodes: seq<EmittedNode>): set<string> {
    set i | 0 <= i < |nodes| :: nodes[i].name
  }

  predicate Mine(typ: Option<string>, name: string, catalogue: set<string>) {
    typ == Some(HTTP_TOOL_TYPE) && name in catalogue
  }

  function LiveByName(existing: seq<ExistingNode>): map<string, ExistingNode> {
    if existing == [] then map[]
    else LiveByName(existing[..|existing| - 1])[existing[|existing| - 1].name := existing[|existing| - 1]]
  }

  function Removals(existing: seq<ExistingNode>, keep: set<string>, catalogue: set<string>): seq<Operation> {
    if existing == [] then []
    else
      var e := existing[0];
      (if Mine(e.typ, e.name, catalogue) && e.name !in keep then [RemoveNode(e.name)] else [])
      + Removals(existing[1..], keep, catalogue)
  }

  predicate Clashes(node: EmittedNode, live: map<string, ExistingNode>) {
    node.name in live && live[node.name].typ != Some(HTTP_TOOL_TYPE)
  }

  function NodeOps(node: EmittedNode, live: map<string, ExistingNode>): seq<Operation> {
    if node.name in live then
      var p := live[node.name].parameters;
      if p == None || Stable(p.value) != Stable(node.parameters)
      then [UpdateNodeParameters(node.name, node.parameters)] else []
    else
      [AddNode(node.name, node.parameters), AddConnection(node.name)]
  }

  function AllNodeOps(nodes: seq<EmittedNode>, live: map<string, ExistingNode>): seq<Operation> {
    if nodes == [] then [] else NodeOps(nodes[0], live) + AllNodeOps(nodes[1..], live)
  }

  function Operations(nodes: seq<EmittedNode>, existing: seq<ExistingNode>, catalogue: set<string>): seq<Operation> {
    Removals(existing, NodeNames(nodes), catalogue) + AllNodeOps(nodes, LiveByName(existing))
  }

  /** `existing[j]` is the last node of the name. */
  ghost predicate LastOfName(existing: seq<ExistingNode>, j: int, name: string) {
    0 <= j < |existing| && existing[j].name == name && forall k :: j < k < |existing| ==> existing[k].name != name
  }

  lemma {:induction false} LiveIsLast(existing: seq<ExistingNode>, name: string)
    ensures name in LiveByName(existing) ==>
              exists j :: LastOfName(existing, j, name) && LiveByName(existing)[name] == existing[j]
    ensures name !in LiveByName(existing) ==> forall j :: 0 <= j < |existing| ==> existing[j].name != name
  {
    if existing != [] {
      var n := |existing| - 1;
      LiveIsLast(existing[..n], name);
      if existing[n].name == name {
        assert LastOfName(existing, n, name);
      } else if name in LiveByName(existing[..n]) {
        var j :| LastOfName(existing[..n], j, name) && LiveByName(existing[..n])[name] == existing[..n][j];
        assert LastOfName(existing, j, name);
      } else {
        forall j | 0 <= j < n ensures existing[j].name != name { assert existing[..n][j] == existing[j]; }
      }
    }
  }

  lemma {:induction false} RemovalsSnoc(existing: seq<ExistingNode>, e: ExistingNode, keep: set<string>,
                                        catalogue: set<string>)
    ensures Removals(existing + [e], keep, catalogue) ==
            Removals(existing, keep, catalogue) + Removals([e], keep, catalogue)
  {
    if existing != [] {
      assert (existing + [e])[1..] == existing[1..] + [e];
      RemovalsSnoc(existing[1..], e, keep, catalogue);
    } else {
      assert existing + [e] == [e];
    }
  }

  lemma {:induction false} AllNodeOpsSnoc(nodes: seq<EmittedNode>, n: EmittedNode, live: map<string, ExistingNode>)
    ensures AllNodeOps(nodes + [n], live) == AllNodeOps(nodes, live) + NodeOps(n, live)
  {
    if nodes != [] {
      assert (nodes + [n])[1..] == nodes[1..] + [n];
      AllNodeOpsSnoc(nodes[1..], n, live);
    } else {
      assert nodes + [n] == [n];
    }
  }

  lemma NoClashAtAll(nodes: seq<EmittedNode>, existing: seq<ExistingNode>)
    requires forall j :: 0 <= j < |nodes| ==> !Clashes(nodes[j], LiveByName(existing))
    ensures forall i, j :: 0 <= i < |nodes| && LastOfName(existing, j, nodes[i].name) ==>
              existing[j].typ == Some(HTTP_TOOL_TYPE)
  {
    hide LiveByName;
    forall i, j | 0 <= i < |nodes| && LastOfName(existing, j, nodes[i].name)
      ensures existing[j].typ == Some(HTTP_TOOL_TYPE)
    {
      LiveIsLast(existing, nodes[i].name);
      assert !Clashes(nodes[i], LiveByName(existing));
    }
  }

  /** Refuses, naming the first node whose name a node of another type holds; otherwise the operations. */
  method RenderOperations(nodes: seq<EmittedNode>, existing: seq<ExistingNode>, catalogue: set<string>)
    returns (r: Result<seq<Operation>, string>)
    ensures r.Ok? ==> r.value == Operations(nodes, existing, catalogue)
    ensures r.Ok? <==> forall i, j :: 0 <= i < |nodes| && LastOfName(existing, j, nodes[i].name) ==>
                         existing[j].typ == Some(HTTP_TOOL_TYPE)
    ensures r.Err? ==>
              && (exists i :: 0 <= i < |nodes| && nodes[i].name == r.error)
              && exists j :: LastOfName(existing, j, r.error) && existing[j].typ != Some(HTTP_TOOL_TYPE)
  {
    hide Stable, LiveByName;
    var liveByName := LiveByName(existing);
    var keep := NodeNames(nodes);
    var ops := [];
    for i := 0 to |existing|
      invariant ops == Removals(existing[..i], keep, catalogue)
    {
      assert existing[..i + 1] == existing[..i] + [existing[i]];
      RemovalsSnoc(existing[..i], existing[i], keep, catalogue);
      if Mine(existing[i].typ, existing[i].name, catalogue) && existing[i].name !in keep {
        ops := ops + [RemoveNode(existing[i].name)];
      }
    }
    assert existing[..|existing|] == existing;
    ghost var removals := ops;
    for i := 0 to |nodes|
      invariant ops == removals + AllNodeOps(nodes[..i], liveByName)
      invariant forall j :: 0 <= j < i ==> !Clashes(nodes[j], liveByName)
    {
      var node := nodes[i];
      LiveIsLast(existing, node.name);
      if Clashes(node, liveByName) {
        return Err(node.name);
      }
      assert nodes[..i + 1] == nodes[..i] + [node];
      AllNodeOpsSnoc(nodes[..i], node, liveByName);
      if node.name in liveByName {
        var p := liveByName[node.name].parameters;
        if p == None || Stable(p.value) != Stable(node.parameters) {
          ops := ops + [UpdateNodeParameters(node.name, node.parameters)];
        }
        continue;
      }
      ops := ops + [AddNode(node.name, node.parameters)];
      ops := ops + [AddConnection(node.name)];
    }
    assert nodes[..|nodes|] == nodes;
    NoClashAtAll(nodes, existing);
    return Ok(ops);
  }

  // ---------- The live workflow ----------

  datatype NodeState = NodeState(typ: Option<string>, parameters: Option<Value>)

  /** The nodes by name, and the names of those attached to the agent as tools. */
  datatype Workflow = Workflow(nodes: map<string, NodeState>, attached: set<string>)

  /** One operation of `update_workflow`; None when n8n refuses it. */
  function Apply(op: Operation, w: Workflow): Option<Workflow> {
    match op
    case RemoveNode(name) =>
      if name in w.nodes then Some(Workflow(w.nodes - {name}, w.attached - {name})) else None
    case UpdateNodeParameters(name, p) =>
      if name in w.nodes then Some(w.(nodes := w.nodes[name := w.nodes[name].(parameters := Some(p))])) else None
    case AddNode(name, p) =>
      if name !in w.nodes then Some(w.(nodes := w.nodes[name := NodeState(Some(HTTP_TOOL_TYPE), Some(p))])) else None
    case AddConnection(source) =>
      if source in w.nodes && AGENT_NODE_NAME in w.nodes then Some(w.(attached := w.attached + {source})) else None
  }

  function ApplyAll(ops: seq<Operation>, w: Workflow): Option<Workflow> {
    if ops == [] then Some(w)
    else match Apply(ops[0], w)
      case None => None
      case Some(w') => ApplyAll(ops[1..], w')
  }

  lemma {:induction false} ApplyAllConcat(a: seq<Operation>, b: seq<Operation>, w: Workflow)
    ensures ApplyAll(a + b, w) ==
            match ApplyAll(a, w) case None => None case Some(w') => ApplyAll(b, w')
  {
    if a == [] {
      assert a + b == b;
    } else {
      assert (a + b)[1..] == a[1..] + b;
      match Apply(a[0], w)
      case None =>
      case Some(w') => ApplyAllConcat(a[1..], b, w');
    }
  }

  predicate UniqueNames(existing: seq<ExistingNode>) {
    forall i, j :: 0 <= i < j < |existing| ==> existing[i].name != existing[j].name
  }

  predicate UniqueNodes(nodes: seq<EmittedNode>) {
    forall i, j :: 0 <= i < j < |nodes| ==> nodes[i].name != nodes[j].name
  }

  /** Equal as JSON documents; n8n's storage may reorder keys. */
  ghost predicate SameParameters(p: Option<Value>, q: Option<Value>) {
    match (p, q)
    case (None, None) => true
    case (Some(v), Some(w)) => Denote(v) == Denote(w)
    case _ => false
  }

  ghost predicate Readable(p: Option<Value>) {
    p.Some? ==> WellFormed(p.value)
  }

  /** `existing` is the workflow as it is now. */
  ghost predicate Describes(existing: seq<ExistingNode>, w: Workflow) {
    && UniqueNames(existing)
    && (forall name :: name in w.nodes <==> exists i :: 0 <= i < |existing| && existing[i].name == name)
    && forall i :: 0 <= i < |existing| ==>
         && existing[i].name in w.nodes && existing[i].typ == w.nodes[existing[i].name].typ
         && SameParameters(existing[i].parameters, w.nodes[existing[i].name].parameters)
         && Readable(existing[i].parameters) && Readable(w.nodes[existing[i].name].parameters)
  }

  /** A name no emitted node has: a tool of the catalogue is gone; a node of another name, or of another type, is
      exactly as it was. */
  ghost predicate KeptOrGone(name: string, w: Workflow, w': Workflow, catalogue: set<string>) {
    if name in w.nodes && (name !in catalogue || w.nodes[name].typ != Some("n8n-nodes-base.httpRequestTool"))
    then name in w'.nodes && w'.nodes[name] == w.nodes[name] && (name in w'.attached <==> name in w.attached)
    else name !in w'.nodes
  }

  /** What a run promises of the workflow it leaves behind. */
  ghost predicate Reconciled(w: Workflow, w': Workflow, nodes: seq<EmittedNode>, catalogue: set<string>) {
    && (forall i :: 0 <= i < |nodes| ==>
          && nodes[i].name in w'.nodes
          && w'.nodes[nodes[i].name].typ == Some(HTTP_TOOL_TYPE)
          && SameParameters(w'.nodes[nodes[i].name].parameters, Some(nodes[i].parameters))
          && (nodes[i].name in w'.attached <==> nodes[i].name !in w.nodes || nodes[i].name in w.attached))
    && forall name :: (forall i :: 0 <= i < |nodes| ==> nodes[i].name != name) ==> KeptOrGone(name, w, w', catalogue)
  }

  lemma {:induction false} LiveByNameSpec(existing: seq<ExistingNode>)
    requires UniqueNames(existing)
    ensures forall name :: name in LiveByName(existing) <==> exists i :: 0 <= i < |existing| && existing[i].name == name
    ensures forall i :: 0 <= i < |existing| ==> LiveByName(existing)[existing[i].name] == existing[i]
  {
    if existing != [] {
      var init := existing[..|existing| - 1];
      LiveByNameSpec(init);
      forall i | 0 <= i < |init| ensures LiveByName(existing)[existing[i].name] == existing[i] {
        assert init[i] == existing[i];
      }
      forall name | name in LiveByName(existing) ensures exists i :: 0 <= i < |existing| && existing[i].name == name {
        if name != existing[|existing| - 1].name {
          assert name in LiveByName(init);
          var i :| 0 <= i < |init| && init[i].name == name;
          assert existing[i].name == name;
        }
      }
    }
  }

  // ---------- Every operation is legal, and together they reconcile ----------

  ghost predicate Stale(e: ExistingNode, keep: set<string>, catalogue: set<string>) {
    Mine(e.typ, e.name, catalogue) && e.name !in keep
  }

  ghost function StaleNames(existing: seq<ExistingNode>, keep: set<string>, catalogue: set<string>): set<string> {
    set i | 0 <= i < |existing| && Stale(existing[i], keep, catalogue) :: existing[i].name
  }

  lemma {:induction false} RemovalsApply(existing: seq<ExistingNode>, keep: set<string>, catalogue: set<string>,
                                         w: Workflow)
    requires UniqueNames(existing)
    requires forall i :: 0 <= i < |existing| ==> existing[i].name in w.nodes
    ensures var stale := StaleNames(existing, keep, catalogue);
            ApplyAll(Removals(existing, keep, catalogue), w) == Some(Workflow(w.nodes - stale, w.attached - stale))
  {
    var stale := StaleNames(existing, keep, catalogue);
    if existing == [] {
      assert w.nodes - stale == w.nodes && w.attached - stale == w.attached;
    } else {
      hide Stale, StaleNames;
      var e, rest := existing[0], existing[1..];
      var tailStale := StaleNames(rest, keep, catalogue);
      StaleNamesCons(existing, keep, catalogue);
      var w1 := if Stale(e, keep, catalogue) then Workflow(w.nodes - {e.name}, w.attached - {e.name}) else w;
      StaleNamesKnown(rest, keep, catalogue);
      RemovalsApply(rest, keep, catalogue, w1);
      RemovalStep(existing, keep, catalogue, w);
      assert w.nodes - stale == w1.nodes - tailStale && w.attached - stale == w1.attached - tailStale;
    }
  }

  lemma StaleNamesKnown(existing: seq<ExistingNode>, keep: set<string>, catalogue: set<string>)
    ensures forall name :: name in StaleNames(existing, keep, catalogue) ==>
              exists i :: 0 <= i < |existing| && existing[i].name == name
  {
  }

  lemma StaleNamesCons(existing: seq<ExistingNode>, keep: set<string>, catalogue: set<string>)
    requires existing != []
    ensures StaleNames(existing, keep, catalogue) ==
            StaleNames(existing[1..], keep, catalogue)
            + if Stale(existing[0], keep, catalogue) then {existing[0].name} else {}
  {
    var e, rest := existing[0], existing[1..];
    var stale, tailStale := StaleNames(existing, keep, catalogue), StaleNames(rest, keep, catalogue);
    forall name | name in stale ensures name in tailStale || (name == e.name && Stale(e, keep, catalogue)) {
      var i :| 0 <= i < |existing| && Stale(existing[i], keep, catalogue) && existing[i].name == name;
      if i > 0 { assert rest[i - 1] == existing[i]; }
    }
    forall name | name in tailStale ensures name in stale {
      var i :| 0 <= i < |rest| && Stale(rest[i], keep, catalogue) && rest[i].name == name;
      assert existing[i + 1] == rest[i];
    }
  }

  lemma RemovalStep(existing: seq<ExistingNode>, keep: set<string>, catalogue: set<string>, w: Workflow)
    requires existing != [] && existing[0].name in w.nodes
    ensures var e := existing[0];
            var w1 := if Stale(e, keep, catalogue) then Workflow(w.nodes - {e.name}, w.attached - {e.name}) else w;
            ApplyAll(Removals(existing, keep, catalogue), w) == ApplyAll(Removals(existing[1..], keep, catalogue), w1)
  {
    var ops, rest := Removals(existing, keep, catalogue), Removals(existing[1..], keep, catalogue);
    if Stale(existing[0], keep, catalogue) {
      assert ops[0] == RemoveNode(existing[0].name) && ops[1..] == rest;
    } else {
      assert ops == rest;
    }
  }

  /** The node's entry before the run agrees with what `renderOperations` was told about it. */
  ghost predicate Told(node: EmittedNode, live: map<string, ExistingNode>, w: Workflow) {
    && WellFormed(node.parameters)
    && (node.name in live <==> node.name in w.nodes)
    && (node.name in live ==>
          && w.nodes[node.name].typ == Some(HTTP_TOOL_TYPE)
          && SameParameters(live[node.name].parameters, w.nodes[node.name].parameters)
          && Readable(live[node.name].parameters) && Readable(w.nodes[node.name].parameters))
  }

  /** The node is in place, and attached if it is new. */
  ghost predicate InPlace(node: EmittedNode, w: Workflow, w': Workflow) {
    && node.name in w'.nodes
    && w'.nodes[node.name].typ == Some(HTTP_TOOL_TYPE)
    && SameParameters(w'.nodes[node.name].parameters, Some(node.parameters))
    && (if node.name in w.nodes then node.name in w'.attached <==> node.name in w.attached
        else node.name in w'.attached)
  }

  ghost predicate Untouched(name: string, w: Workflow, w': Workflow) {
    && (name in w'.nodes <==> name in w.nodes)
    && (name in w.nodes ==> w'.nodes[name] == w.nodes[name])
    && (name in w'.attached <==> name in w.attached)
  }

  lemma NodeOpsApplyOne(node: EmittedNode, live: map<string, ExistingNode>, w: Workflow)
    requires Told(node, live, w) && AGENT_NODE_NAME in w.nodes
    ensures ApplyAll(NodeOps(node, live), w).Some?
    ensures var w' := ApplyAll(NodeOps(node, live), w).value;
            InPlace(node, w, w') && forall name :: name != node.name ==> Untouched(name, w, w')
  {
    if node.name in live {
      var p := live[node.name].parameters;
      if p.Some? {
        StableIsCanonical(p.value, node.parameters);
      }
    } else {
      var add, connect := AddNode(node.name, node.parameters), AddConnection(node.name);
      assert [add, connect][1..] == [connect] && [connect][1..] == [];
      assert ApplyAll([connect], Apply(add, w).value) == Apply(connect, Apply(add, w).value);
    }
  }

  lemma {:induction false} NodeOpsApply(nodes: seq<EmittedNode>, live: map<string, ExistingNode>, w: Workflow)
    requires UniqueNodes(nodes) && AGENT_NODE_NAME in w.nodes
    requires forall i :: 0 <= i < |nodes| ==> Told(nodes[i], live, w)
    ensures ApplyAll(AllNodeOps(nodes, live), w).Some?
    ensures var w' := ApplyAll(AllNodeOps(nodes, live), w).value;
            && (forall i :: 0 <= i < |nodes| ==> InPlace(nodes[i], w, w'))
            && forall name :: name !in NodeNames(nodes) ==> Untouched(name, w, w')
  {
    if nodes != [] {
      hide Stable, WellFormed, SameParameters, Apply, NodeOps;
      var node, rest := nodes[0], nodes[1..];
      NodeOpsApplyOne(node, live, w);
      var w1 := ApplyAll(NodeOps(node, live), w).value;
      assert Untouched(AGENT_NODE_NAME, w, w1) || node.name == AGENT_NODE_NAME;
      forall i | 0 <= i < |rest| ensures Told(rest[i], live, w1) {
        assert rest[i] == nodes[i + 1] && Untouched(rest[i].name, w, w1);
      }
      NodeOpsApply(rest, live, w1);
      ApplyAllConcat(NodeOps(node, live), AllNodeOps(rest, live), w);
      var w' := ApplyAll(AllNodeOps(rest, live), w1).value;
      assert node.name !in NodeNames(rest);
      assert Untouched(node.name, w1, w');
      forall i | 0 <= i < |nodes| ensures InPlace(nodes[i], w, w') {
        if i > 0 {
          assert nodes[i] == rest[i - 1] && InPlace(rest[i - 1], w1, w') && Untouched(nodes[i].name, w, w1);
        }
      }
      forall name | name !in NodeNames(nodes) ensures Untouched(name, w, w') {
        assert name != nodes[0].name;
        assert forall i :: 0 <= i < |rest| ==> rest[i] == nodes[i + 1];
        assert Untouched(name, w, w1) && Untouched(name, w1, w');
      }
    }
  }

  /** Applied to the workflow it was told about, every operation is legal and the result is the
      catalogue's: generated nodes hold exactly the emitted tools, everything else is as it was. */
  lemma OperationsReconcile(nodes: seq<EmittedNode>, existing: seq<ExistingNode>, catalogue: set<string>, w: Workflow)
    requires UniqueNodes(nodes) && Describes(existing, w)
    requires forall i :: 0 <= i < |nodes| ==>
               WellFormed(nodes[i].parameters) && !Clashes(nodes[i], LiveByName(existing))
    requires AGENT_NODE_NAME in w.nodes
    requires w.nodes[AGENT_NODE_NAME].typ != Some(HTTP_TOOL_TYPE) || AGENT_NODE_NAME !in catalogue
             || AGENT_NODE_NAME in NodeNames(nodes)
    ensures ApplyAll(Operations(nodes, existing, catalogue), w).Some?
    ensures Reconciled(w, ApplyAll(Operations(nodes, existing, catalogue), w).value, nodes, catalogue)
  {
    hide Stable, WellFormed, SameParameters, Apply, NodeOps, ApplyAll, Denote, LiveByName, Removals, AllNodeOps,
         StaleNames;
    var keep, live := NodeNames(nodes), LiveByName(existing);
    var stale := StaleNames(existing, keep, catalogue);
    LiveByNameSpec(existing);
    RemovalsApply(existing, keep, catalogue, w);
    var w1 := Workflow(w.nodes - stale, w.attached - stale);
    StaleNamesSpec(existing, keep, catalogue, w);
    forall i | 0 <= i < |nodes| ensures Told(nodes[i], live, w1) {
      assert nodes[i].name in keep;
    }
    NodeOpsApply(nodes, live, w1);
    ApplyAllConcat(Removals(existing, keep, catalogue), AllNodeOps(nodes, live), w);
    var w' := ApplyAll(AllNodeOps(nodes, live), w1).value;
    forall i | 0 <= i < |nodes|
      ensures InPlace(nodes[i], w1, w') && (nodes[i].name in w.nodes <==> nodes[i].name in w1.nodes)
      ensures nodes[i].name in w.attached <==> nodes[i].name in w1.attached
    {
      assert nodes[i].name in keep;
    }
    forall name | name !in keep ensures KeptOrGone(name, w, w', catalogue) {
      assert Untouched(name, w1, w');
    }
  }

  lemma StaleNamesSpec(existing: seq<ExistingNode>, keep: set<string>, catalogue: set<string>, w: Workflow)
    requires Describes(existing, w)
    ensures forall name :: name in StaleNames(existing, keep, catalogue) <==>
              name in w.nodes && Mine(w.nodes[name].typ, name, catalogue) && name !in keep
  {
    forall name | name in w.nodes && Mine(w.nodes[name].typ, name, catalogue) && name !in keep
      ensures name in StaleNames(existing, keep, catalogue)
    {
      var i :| 0 <= i < |existing| && existing[i].name == name;
      assert Stale(existing[i], keep, catalogue);
    }
  }

  lemma {:induction false} NoRemovals(existing: seq<ExistingNode>, keep: set<string>, catalogue: set<string>)
    requires forall i :: 0 <= i < |existing| ==> !Stale(existing[i], keep, catalogue)
    ensures Removals(existing, keep, catalogue) == []
  {
    if existing != [] {
      assert !Stale(existing[0], keep, catalogue);
      NoRemovals(existing[1..], keep, catalogue);
    }
  }

  lemma {:induction false} NoNodeOps(nodes: seq<EmittedNode>, live: map<string, ExistingNode>)
    requires forall i :: 0 <= i < |nodes| ==> NodeOps(nodes[i], live) == []
    ensures AllNodeOps(nodes, live) == []
  {
    if nodes != [] { NoNodeOps(nodes[1..], live); }
  }

  /** A second run over a reconciled workflow, read back in any key order, emits nothing. */
  lemma SecondRunEmitsNothing(nodes: seq<EmittedNode>, existing: seq<ExistingNode>, catalogue: set<string>,
                              w: Workflow, w': Workflow)
    requires Reconciled(w, w', nodes, catalogue) && Describes(existing, w')
    requires forall i :: 0 <= i < |nodes| ==> WellFormed(nodes[i].parameters)
    ensures forall i :: 0 <= i < |nodes| ==> !Clashes(nodes[i], LiveByName(existing))
    ensures Operations(nodes, existing, catalogue) == []
  {
    hide Stable, WellFormed, Denote;
    var live := LiveByName(existing);
    LiveByNameSpec(existing);
    forall i | 0 <= i < |nodes| ensures !Clashes(nodes[i], live) && NodeOps(nodes[i], live) == [] {
      assert nodes[i].name in w'.nodes;
      var k :| 0 <= k < |existing| && existing[k].name == nodes[i].name;
      assert live[nodes[i].name] == existing[k];
      StableIsCanonical(existing[k].parameters.value, nodes[i].parameters);
    }
    forall i | 0 <= i < |existing| ensures !Stale(existing[i], NodeNames(nodes), catalogue) {
      var name := existing[i].name;
      assert name in w'.nodes;
      if name !in NodeNames(nodes) { assert KeptOrGone(name, w, w', catalogue); }
    }
    NoRemovals(existing, NodeNames(nodes), catalogue);
    NoNodeOps(nodes, live);
  }

  /** A tool of the flow's own, a payment row, an identity sync, or a route that does not exist. */
  ghost predicate Withheld(tool: Tool) {
    || tool.tier == FlowOnly
    || tool.surface in {"webhook_command", "payment_public"}
    || (|tool.name| >= 9 && tool.name[..9] == "identity_")
    || tool.status != "available"
  }

  lemma {:induction false} SelectedAreModelFacing(tools: seq<Tool>, tool: Tool)
    ensures tool in SelectMcpTools(tools) <==> tool in tools && !Withheld(tool)
  {
    if tools != [] {
      assert tools == [tools[0]] + tools[1..];
      SelectedAreModelFacing(tools[1..], tool);
    }
  }

  function ToolNames(tools: seq<Tool>): set<string> {
    set i | 0 <= i < |tools| :: tools[i].name
  }

  lemma NotBuilt(tools: seq<Tool>, parametersOf: Tool -> Value, tool: Tool)
    requires forall i, j :: 0 <= i < j < |tools| ==> tools[i].name != tools[j].name
    requires tool in tools && Withheld(tool)
    ensures tool.name in ToolNames(tools)
    ensures tool.name !in NodeNames(BuildNodes(SelectMcpTools(tools), parametersOf))
  {
    hide IsModelFacing, SelectMcpTools, Withheld;
    var selected := SelectMcpTools(tools);
    forall i | 0 <= i < |selected| ensures selected[i].name != tool.name {
      SelectedAreModelFacing(tools, selected[i]);
    }
  }

  lemma OthersKept(w: Workflow, w': Workflow, nodes: seq<EmittedNode>, catalogue: set<string>, name: string)
    requires Reconciled(w, w', nodes, catalogue) && name !in NodeNames(nodes)
    ensures KeptOrGone(name, w, w', catalogue)
  {
    hide SameParameters, KeptOrGone;
    assert forall i :: 0 <= i < |nodes| ==> nodes[i].name in NodeNames(nodes);
  }

  lemma NeverGenerated(name: string, catalogue: set<string>, w: Workflow, w': Workflow)
    requires KeptOrGone(name, w, w', catalogue) && name in catalogue
    ensures name in w'.nodes ==> w'.nodes[name].typ != Some(HTTP_TOOL_TYPE)
  {
  }

  /** After a run no generated node, new or left over, carries a tool the model may not call. */
  lemma FlowOnlyNeverHeld(tools: seq<Tool>, parametersOf: Tool -> Value, w: Workflow, w': Workflow, tool: Tool)
    requires forall i, j :: 0 <= i < j < |tools| ==> tools[i].name != tools[j].name
    requires Reconciled(w, w', BuildNodes(SelectMcpTools(tools), parametersOf), ToolNames(tools))
    requires tool in tools && Withheld(tool)
    ensures tool.name in w'.nodes ==> w'.nodes[tool.name].typ != Some(HTTP_TOOL_TYPE)
  {
    hide SameParameters, BuildNodes, SelectMcpTools, Withheld, Reconciled, KeptOrGone, ToolNames;
    NotBuilt(tools, parametersOf, tool);
    OthersKept(w, w', BuildNodes(SelectMcpTools(tools), parametersOf), ToolNames(tools), tool.name);
    NeverGenerated(tool.name, ToolNames(tools), w, w');
  }

  // ---------- Batches ----------

  function Flatten(batches: seq<seq<Operation>>): seq<Operation> {
    if batches == [] then [] else batches[0] + Flatten(batches[1..])
  }

  /** The `b`-th hundred of the operations. */
  function BatchAt(ops: seq<Operation>, b: nat): seq<Operation>
    requires 100 * b <= |ops|
  {
    if 100 * (b + 1) < |ops| then ops[100 * b..100 * (b + 1)] else ops[100 * b..]
  }

  /** Batch `b` holds the `b`-th hundred, up to the last operation. */
  ghost predicate Batched(ops: seq<Operation>, batches: seq<seq<Operation>>) {
    |ops| <= 100 * |batches| && BatchedSoFar(ops, batches)
  }

  ghost predicate BatchedSoFar(ops: seq<Operation>, batches: seq<seq<Operation>>) {
    forall b :: 0 <= b < |batches| ==> 100 * b < |ops| && batches[b] == BatchAt(ops, b)
  }

  lemma OneMoreBatch(ops: seq<Operation>, batches: seq<seq<Operation>>, i: nat)
    requires BatchedSoFar(ops, batches) && i == 100 * |batches| < |ops|
    ensures BatchedSoFar(ops, batches + [if i + 100 < |ops| then ops[i..i + 100] else ops[i..]])
  {
  }

  lemma BatchSize(ops: seq<Operation>, b: nat)
    requires 100 * b < |ops|
    ensures 0 < |BatchAt(ops, b)| <= 100
  {
  }

  method BatchOperations(ops: seq<Operation>) returns (batches: seq<seq<Operation>>)
    ensures Batched(ops, batches)
    ensures Flatten(batches) == ops
    ensures forall b :: 0 <= b < |batches| ==> 0 < |batches[b]| <= MAX_OPERATIONS_PER_CALL
  {
    hide BatchAt, BatchedSoFar, Flatten;
    var size := MAX_OPERATIONS_PER_CALL - MAX_OPERATIONS_PER_CALL % 2;
    assert size == 100;
    batches := [];
    NoBatches(ops);
    var i := 0;
    while i < |ops|
      invariant i == 100 * |batches|
      invariant BatchedSoFar(ops, batches)
      decreases |ops| - i
    {
      OneMoreBatch(ops, batches, i);
      batches := batches + [if i + size < |ops| then ops[i..i + size] else ops[i..]];
      i := i + size;
    }
    BatchesCover(ops, batches, 0);
    assert batches[0..] == batches && ops[0..] == ops;
    BatchSizes(ops, batches);
  }

  lemma NoBatches(ops: seq<Operation>)
    ensures BatchedSoFar(ops, [])
  {
  }

  lemma BatchSizes(ops: seq<Operation>, batches: seq<seq<Operation>>)
    requires BatchedSoFar(ops, batches)
    ensures forall b :: 0 <= b < |batches| ==> 0 < |batches[b]| <= MAX_OPERATIONS_PER_CALL
  {
    hide BatchAt;
    forall b | 0 <= b < |batches| ensures 0 < |batches[b]| <= MAX_OPERATIONS_PER_CALL { BatchSize(ops, b); }
  }

  lemma {:induction false} BatchesCover(ops: seq<Operation>, batches: seq<seq<Operation>>, b: nat)
    requires Batched(ops, batches) && b <= |batches|
    ensures Flatten(batches[b..]) == if 100 * b < |ops| then ops[100 * b..] else []
    decreases |batches| - b
  {
    hide BatchAt;
    if b < |batches| {
      BatchesCover(ops, batches, b + 1);
      assert batches[b..][1..] == batches[b + 1..];
      BatchThenRest(ops, b);
    }
  }

  lemma BatchThenRest(ops: seq<Operation>, b: nat)
    requires 100 * b < |ops|
    ensures ops[100 * b..] == BatchAt(ops, b) + if 100 * (b + 1) < |ops| then ops[100 * (b + 1)..] else []
  {
  }

  function ApplyBatches(batches: seq<seq<Operation>>, w: Workflow): Option<Workflow> {
    if batches == [] then Some(w)
    else match ApplyAll(batches[0], w)
      case None => None
      case Some(w') => ApplyBatches(batches[1..], w')
  }

  /** Calling batch after batch reaches what one call with every operation would. */
  lemma {:induction false} BatchesApplyInOrder(batches: seq<seq<Operation>>, w: Workflow)
    ensures ApplyBatches(batches, w) == ApplyAll(Flatten(batches), w)
  {
    if batches != [] {
      ApplyAllConcat(batches[0], Flatten(batches[1..]), w);
      match ApplyAll(batches[0], w)
      case None =>
      case Some(w') => BatchesApplyInOrder(batches[1..], w');
    }
  }

  /** An addition is always followed by the connection that attaches it. */
  lemma {:induction false} AddThenConnect(nodes: seq<EmittedNode>, live: map<string, ExistingNode>, i: nat)
    requires i < |AllNodeOps(nodes, live)| && AllNodeOps(nodes, live)[i].AddNode?
    ensures i + 1 < |AllNodeOps(nodes, live)|
    ensures AllNodeOps(nodes, live)[i + 1] == AddConnection(AllNodeOps(nodes, live)[i].name)
  {
    hide Stable;
    var first := NodeOps(nodes[0], live);
    if i >= |first| {
      AddThenConnect(nodes[1..], live, i - |first|);
    }
  }

  lemma {:induction false} RemovalsOnlyRemove(existing: seq<ExistingNode>, keep: set<string>, catalogue: set<string>)
    ensures forall op :: op in Removals(existing, keep, catalogue) ==> op.RemoveNode?
  {
    if existing != [] { RemovalsOnlyRemove(existing[1..], keep, catalogue); }
  }

  /** A node and the connection that attaches it are in two calls exactly when the addition is the
      last of a full batch; the even batch size alone does not prevent it. */
  lemma PairSplitExactly(nodes: seq<EmittedNode>, existing: seq<ExistingNode>, catalogue: set<string>,
                         batches: seq<seq<Operation>>, i: nat)
    requires Batched(Operations(nodes, existing, catalogue), batches)
    requires i < |Operations(nodes, existing, catalogue)| && Operations(nodes, existing, catalogue)[i].AddNode?
    ensures var ops := Operations(nodes, existing, catalogue);
            var b := i / MAX_OPERATIONS_PER_CALL;
            && i + 1 < |ops| && ops[i + 1] == AddConnection(ops[i].name)
            && b < |batches| && i % MAX_OPERATIONS_PER_CALL < |batches[b]|
            && batches[b][i % MAX_OPERATIONS_PER_CALL] == ops[i]
            && (if i % MAX_OPERATIONS_PER_CALL == 99
                then b + 1 < |batches| && batches[b + 1] != [] && batches[b + 1][0] == ops[i + 1]
                else i % MAX_OPERATIONS_PER_CALL + 1 < |batches[b]| &&
                     batches[b][i % MAX_OPERATIONS_PER_CALL + 1] == ops[i + 1])
  {
    hide Removals, AllNodeOps, LiveByName, Batched;
    var removals := Removals(existing, NodeNames(nodes), catalogue);
    RemovalsOnlyRemove(existing, NodeNames(nodes), catalogue);
    assert forall k :: 0 <= k < |removals| ==> removals[k] in removals;
    AddThenConnect(nodes, LiveByName(existing), i - |removals|);
    BatchedAt(Operations(nodes, existing, catalogue), batches, i);
    BatchedAt(Operations(nodes, existing, catalogue), batches, i + 1);
  }

  lemma BatchedAt(ops: seq<Operation>, batches: seq<seq<Operation>>, i: nat)
    requires Batched(ops, batches) && i < |ops|
    ensures i / MAX_OPERATIONS_PER_CALL < |batches|
    ensures i % MAX_OPERATIONS_PER_CALL < |batches[i / MAX_OPERATIONS_PER_CALL]|
    ensures batches[i / MAX_OPERATIONS_PER_CALL][i % MAX_OPERATIONS_PER_CALL] == ops[i]
  {
    var b := i / MAX_OPERATIONS_PER_CALL;
    assert i == b * MAX_OPERATIONS_PER_CALL + i % MAX_OPERATIONS_PER_CALL;
  }

  // ---------- A run cut off between two calls, and the run after it ----------

  lemma {:induction false} NodeOpNames(nodes: seq<EmittedNode>, live: map<string, ExistingNode>, op: Operation)
    requires op in AllNodeOps(nodes, live)
    ensures op.AddNode? ==> op.name in NodeNames(nodes)
    ensures !op.RemoveNode?
  {
    hide Stable;
    if op !in NodeOps(nodes[0], live) {
      NodeOpNames(nodes[1..], live, op);
      if op.AddNode? {
        var i :| 0 <= i < |nodes[1..]| && nodes[1..][i].name == op.name;
        assert nodes[i + 1].name == op.name;
      }
    }
  }

  lemma {:induction false} RemovalNames(existing: seq<ExistingNode>, keep: set<string>, catalogue: set<string>,
                                        op: Operation)
    requires op in Removals(existing, keep, catalogue)
    ensures op.RemoveNode? && op.name !in keep
    ensures exists i :: 0 <= i < |existing| && existing[i].name == op.name && Mine(existing[i].typ, op.name, catalogue)
  {
    if op !in Removals(existing[1..], keep, catalogue) {
      assert op == RemoveNode(existing[0].name);
    } else {
      RemovalNames(existing[1..], keep, catalogue, op);
      var i :| 0 <= i < |existing[1..]| && existing[1..][i].name == op.name
               && Mine(existing[1..][i].typ, op.name, catalogue);
      assert existing[i + 1] == existing[1..][i];
    }
  }

  /** The agent has a node that no run removes, and the connections lead from nodes there are. */
  ghost predicate Wired(nodes: seq<EmittedNode>, catalogue: set<string>, w: Workflow) {
    && AGENT_NODE_NAME in w.nodes
    && (w.nodes[AGENT_NODE_NAME].typ != Some(HTTP_TOOL_TYPE) || AGENT_NODE_NAME !in catalogue
        || AGENT_NODE_NAME in NodeNames(nodes))
    && w.attached <= w.nodes.Keys
    && forall name :: name in NodeNames(nodes) && name in w.nodes ==> w.nodes[name].typ == Some(HTTP_TOOL_TYPE)
  }

  /** Every generated node there is hangs on the agent, but for the one just added. */
  ghost predicate AttachedBut(nodes: seq<EmittedNode>, w: Workflow, just: set<string>) {
    forall name :: name in NodeNames(nodes) && name in w.nodes ==> (name in w.attached <==> name !in just)
  }

  /** The node whose connection is still to come after `k` operations. */
  ghost function JustAdded(ops: seq<Operation>, k: nat): set<string>
    requires k <= |ops|
  {
    if k > 0 && ops[k - 1].AddNode? then {ops[k - 1].name} else {}
  }

  /** What every operation of a run is. */
  ghost predicate OpFits(nodes: seq<EmittedNode>, op: Operation) {
    && (op.RemoveNode? ==> op.name !in NodeNames(nodes) && op.name != AGENT_NODE_NAME)
    && (op.AddNode? ==> op.name in NodeNames(nodes))
  }

  lemma OpsFit(nodes: seq<EmittedNode>, existing: seq<ExistingNode>, catalogue: set<string>, w: Workflow, k: nat)
    requires Describes(existing, w) && Wired(nodes, catalogue, w) && k < |Operations(nodes, existing, catalogue)|
    ensures var ops := Operations(nodes, existing, catalogue);
            OpFits(nodes, ops[k]) && (ops[k].AddNode? ==> k + 1 < |ops| && ops[k + 1] == AddConnection(ops[k].name))
  {
    hide Removals, AllNodeOps, LiveByName, SameParameters, Readable;
    var ops, removals := Operations(nodes, existing, catalogue), Removals(existing, NodeNames(nodes), catalogue);
    if k < |removals| {
      assert ops[k] == removals[k];
      RemovalNames(existing, NodeNames(nodes), catalogue, ops[k]);
    } else {
      assert ops[k] == AllNodeOps(nodes, LiveByName(existing))[k - |removals|];
      NodeOpNames(nodes, LiveByName(existing), ops[k]);
      if ops[k].AddNode? { AddThenConnect(nodes, LiveByName(existing), k - |removals|); }
    }
  }

  lemma OneMore(ops: seq<Operation>, w: Workflow, k: nat)
    requires k < |ops|
    ensures ApplyAll(ops[..k + 1], w) ==
            match ApplyAll(ops[..k], w) case None => None case Some(cut) => Apply(ops[k], cut)
  {
    hide Apply;
    assert ops[..k + 1] == ops[..k] + [ops[k]];
    ApplyAllConcat(ops[..k], [ops[k]], w);
    match ApplyAll(ops[..k], w)
    case None =>
    case Some(cut) => ApplyOne(ops[k], cut);
  }

  lemma ApplyOne(op: Operation, w: Workflow)
    ensures ApplyAll([op], w) == Apply(op, w)
  {
    assert [op][1..] == [];
  }

  /** One operation keeps the workflow wired and settles the node added before it. */
  lemma StepAttaches(nodes: seq<EmittedNode>, catalogue: set<string>, ops: seq<Operation>, k: nat, cut: Workflow)
    requires k < |ops| && OpFits(nodes, ops[k]) && Apply(ops[k], cut).Some?
    requires k > 0 && ops[k - 1].AddNode? ==> ops[k] == AddConnection(ops[k - 1].name)
    requires Wired(nodes, catalogue, cut) && AttachedBut(nodes, cut, JustAdded(ops, k))
    ensures Wired(nodes, catalogue, Apply(ops[k], cut).value)
    ensures AttachedBut(nodes, Apply(ops[k], cut).value, JustAdded(ops, k + 1))
  {
  }

  /** However far a run gets, at most the node it added last is without its connection. */
  lemma {:induction false} CutAttaches(nodes: seq<EmittedNode>, existing: seq<ExistingNode>, catalogue: set<string>,
                                       w: Workflow, k: nat)
    requires Describes(existing, w) && Wired(nodes, catalogue, w) && AttachedBut(nodes, w, {})
    requires k <= |Operations(nodes, existing, catalogue)|
             && ApplyAll(Operations(nodes, existing, catalogue)[..k], w).Some?
    ensures var ops := Operations(nodes, existing, catalogue);
            var cut := ApplyAll(ops[..k], w).value;
            Wired(nodes, catalogue, cut) && AttachedBut(nodes, cut, JustAdded(ops, k))
            && (k > 0 && ops[k - 1].AddNode? ==> ops[k - 1].name in cut.nodes && ops[k - 1].name in NodeNames(nodes))
  {
    hide Describes, Operations, AttachedBut, Wired, NodeNames;
    var ops := Operations(nodes, existing, catalogue);
    if k == 0 {
      assert ops[..0] == [];
    } else {
      OneMore(ops, w, k - 1);
      CutAttaches(nodes, existing, catalogue, w, k - 1);
      OpsFit(nodes, existing, catalogue, w, k - 1);
      if k > 1 { OpsFit(nodes, existing, catalogue, w, k - 2); }
      StepAttaches(nodes, catalogue, ops, k - 1, ApplyAll(ops[..k - 1], w).value);
    }
  }

  /** A run over a workflow whose nodes are typed as they should be refuses no name. */
  lemma NoClashes(nodes: seq<EmittedNode>, existing: seq<ExistingNode>, catalogue: set<string>, w: Workflow, i: nat)
    requires Describes(existing, w) && Wired(nodes, catalogue, w) && i < |nodes|
    ensures !Clashes(nodes[i], LiveByName(existing))
  {
    hide LiveByName;
    LiveByNameSpec(existing);
    assert nodes[i].name in NodeNames(nodes);
  }

  /** The operations of the first `b` hundreds. */
  function Upto(ops: seq<Operation>, b: nat): seq<Operation> {
    ops[..if 100 * b <= |ops| then 100 * b else |ops|]
  }

  lemma NextHundred(ops: seq<Operation>, b: nat)
    requires 100 * b < |ops|
    ensures Upto(ops, b + 1) == Upto(ops, b) + BatchAt(ops, b)
  {
  }

  lemma {:induction false} FirstBatches(ops: seq<Operation>, batches: seq<seq<Operation>>, b: nat)
    requires Batched(ops, batches) && b <= |batches|
    ensures Flatten(batches[..b]) == Upto(ops, b)
  {
    hide BatchAt, Upto;
    if b == 0 {
      assert Upto(ops, 0) == [] by { NoHundred(ops); }
    } else {
      FirstBatches(ops, batches, b - 1);
      FlattenSnoc(batches[..b - 1], batches[b - 1]);
      assert batches[..b] == batches[..b - 1] + [batches[b - 1]];
      NextHundred(ops, b - 1);
    }
  }

  lemma NoHundred(ops: seq<Operation>)
    ensures Upto(ops, 0) == []
  {
  }

  lemma {:induction false} FlattenSnoc(batches: seq<seq<Operation>>, batch: seq<Operation>)
    ensures Flatten(batches + [batch]) == Flatten(batches) + batch
  {
    if batches == [] {
      assert [] + [batch] == [batch] && [batch][1..] == [];
    } else {
      FlattenSnoc(batches[1..], batch);
      assert (batches + [batch])[1..] == batches[1..] + [batch];
    }
  }

  /** A run cut off after some of its calls, and run again on what it left, attaches every emitted tool
      exactly when the cut parted no node from its connection: the second run adds no connection for a
      node it finds. */
  lemma ResumedAttachesExactly(nodes: seq<EmittedNode>, existing: seq<ExistingNode>, catalogue: set<string>,
                               w: Workflow,
                               batches: seq<seq<Operation>>, b: nat, cut: Workflow, again: seq<ExistingNode>)
    requires UniqueNodes(nodes) && forall i :: 0 <= i < |nodes| ==> WellFormed(nodes[i].parameters)
    requires Describes(existing, w) && Wired(nodes, catalogue, w) && AttachedBut(nodes, w, {})
    requires Batched(Operations(nodes, existing, catalogue), batches) && b <= |batches|
    requires ApplyBatches(batches[..b], w) == Some(cut) && Describes(again, cut)
    ensures var ops := Operations(nodes, existing, catalogue);
            var rerun := ApplyAll(Operations(nodes, again, catalogue), cut);
            && rerun.Some?
            && ((forall i :: 0 <= i < |nodes| ==> nodes[i].name in rerun.value.attached) <==>
                !(0 < b && 100 * b <= |ops| && ops[100 * b - 1].AddNode?))
  {
    hide Operations, Describes, WellFormed, Batched, Apply, ApplyAll, ApplyBatches, SameParameters, Clashes, Flatten;
    var ops := Operations(nodes, existing, catalogue);
    var k := if 100 * b <= |ops| then 100 * b else |ops|;
    FirstBatches(ops, batches, b);
    BatchesApplyInOrder(batches[..b], w);
    CutAttaches(nodes, existing, catalogue, w, k);
    forall i | 0 <= i < |nodes| ensures !Clashes(nodes[i], LiveByName(again)) {
      NoClashes(nodes, again, catalogue, cut, i);
    }
    OperationsReconcile(nodes, again, catalogue, cut);
    if k == |ops| && k > 0 { OpsFit(nodes, existing, catalogue, w, k - 1); }
    var rerun := ApplyAll(Operations(nodes, again, catalogue), cut).value;
    forall i | 0 <= i < |nodes| ensures nodes[i].name in rerun.attached <==> nodes[i].name !in JustAdded(ops, k) {
      assert nodes[i].name in NodeNames(nodes);
    }
  }

  /** Operations that stand alone: removals and updates. */
  function Singles(ops: seq<Operation>): nat {
    if ops == [] then 0
    else (if ops[0].RemoveNode? || ops[0].UpdateNodeParameters? then 1 else 0) + Singles(ops[1..])
  }

  lemma {:induction false} SinglesConcat(a: seq<Operation>, b: seq<Operation>)
    ensures Singles(a + b) == Singles(a) + Singles(b)
  {
    if a == [] {
      assert a + b == b;
    } else {
      assert (a + b)[1..] == a[1..] + b;
      SinglesConcat(a[1..], b);
    }
  }

  lemma {:induction false} AllSingles(ops: seq<Operation>)
    requires forall op :: op in ops ==> op.RemoveNode?
    ensures Singles(ops) == |ops|
  {
    if ops != [] {
      assert ops[0] in ops;
      AllSingles(ops[1..]);
    }
  }

  lemma {:induction false} NodeAddParity(nodes: seq<EmittedNode>, live: map<string, ExistingNode>, i: nat)
    requires i < |AllNodeOps(nodes, live)| && AllNodeOps(nodes, live)[i].AddNode?
    ensures i % 2 == Singles(AllNodeOps(nodes, live)[..i]) % 2
  {
    hide Stable, Singles;
    var first, all := NodeOps(nodes[0], live), AllNodeOps(nodes, live);
    NodeOpsParity(nodes[0], live);
    if i < |first| {
      assert i == 0 && all[..0] == [];
    } else {
      var rest := AllNodeOps(nodes[1..], live);
      NodeAddParity(nodes[1..], live, i - |first|);
      assert all[..i] == first + rest[..i - |first|];
      SinglesConcat(first, rest[..i - |first|]);
    }
  }

  lemma NodeOpsParity(node: EmittedNode, live: map<string, ExistingNode>)
    ensures |NodeOps(node, live)| % 2 == Singles(NodeOps(node, live)) % 2
    ensures Singles([]) == 0
  {
    var ops := NodeOps(node, live);
    if |ops| == 2 {
      assert Singles(ops) == Singles(ops[1..]) && ops[1..] == [ops[1]];
      assert Singles([ops[1]]) == Singles([ops[1]][1..]) && [ops[1]][1..] == [];
    } else if |ops| == 1 {
      assert ops[1..] == [];
    }
  }

  /** An addition sits at an odd index exactly when an odd number of removals and updates precede it. */
  lemma AddIndexParity(nodes: seq<EmittedNode>, existing: seq<ExistingNode>, catalogue: set<string>, i: nat)
    requires i < |Operations(nodes, existing, catalogue)| && Operations(nodes, existing, catalogue)[i].AddNode?
    ensures i % 2 == Singles(Operations(nodes, existing, catalogue)[..i]) % 2
  {
    hide Removals, AllNodeOps, LiveByName;
    var removals := Removals(existing, NodeNames(nodes), catalogue);
    var rest := AllNodeOps(nodes, LiveByName(existing));
    RemovalsOnlyRemove(existing, NodeNames(nodes), catalogue);
    assert forall k :: 0 <= k < |removals| ==> removals[k] in removals;
    NodeAddParity(nodes, LiveByName(existing), i - |removals|);
    assert Operations(nodes, existing, catalogue)[..i] == removals + rest[..i - |removals|];
    SinglesConcat(removals, rest[..i - |removals|]);
    AllSingles(removals);
  }

  lemma {:induction false} FreshOps(nodes: seq<EmittedNode>, live: map<string, ExistingNode>, j: nat)
    requires forall i :: 0 <= i < |nodes| ==> nodes[i].name !in live
    requires j < |nodes|
    ensures |AllNodeOps(nodes, live)| == 2 * |nodes|
    ensures AllNodeOps(nodes, live)[2 * j] == AddNode(nodes[j].name, nodes[j].parameters)
  {
    if |nodes| > 1 {
      FreshOps(nodes[1..], live, if j > 0 then j - 1 else 0);
    } else {
      assert nodes[1..] == [];
    }
  }

  function FiftyNew(parameters: Value): seq<EmittedNode> {
    seq(50, i requires 0 <= i < 50 => EmittedNode(seq(i + 1, _ => 'n'), parameters))
  }

  const LEFT: string := "left"

  /** The agent, one left-over generated node, and nothing else. */
  function Before(parameters: Value): seq<ExistingNode> {
    [ExistingNode(LEFT, Some(HTTP_TOOL_TYPE), Some(parameters)), ExistingNode(AGENT_NODE_NAME, Some("agent"), None)]
  }

  function WorkflowBefore(parameters: Value): Workflow {
    Workflow(map[LEFT := NodeState(Some(HTTP_TOOL_TYPE), Some(parameters)),
                 AGENT_NODE_NAME := NodeState(Some("agent"), None)], {LEFT})
  }

  lemma FiftyNames(parameters: Value)
    ensures var nodes := FiftyNew(parameters);
            && UniqueNodes(nodes) && |nodes| == 50
            && LEFT !in NodeNames(nodes) && AGENT_NODE_NAME !in NodeNames(nodes)
            && forall i :: 0 <= i < 50 ==> nodes[i].parameters == parameters && nodes[i].name in NodeNames(nodes)
  {
    var nodes := FiftyNew(parameters);
    assert forall i :: 0 <= i < 50 ==> |nodes[i].name| == i + 1 && nodes[i].name[0] == 'n';
    assert LEFT[0] == 'l' && AGENT_NODE_NAME[0] == 'A';
  }

  lemma BeforeIsWired(parameters: Value)
    requires WellFormed(parameters)
    ensures var nodes := FiftyNew(parameters);
            var w := WorkflowBefore(parameters);
            && Describes(Before(parameters), w) && Wired(nodes, NodeNames(nodes) + {LEFT}, w)
            && AttachedBut(nodes, w, {})
  {
    FiftyNames(parameters);
    hide FiftyNew, WellFormed, Denote;
    var existing, w := Before(parameters), WorkflowBefore(parameters);
    assert existing[0].name == LEFT && existing[1].name == AGENT_NODE_NAME;
    assert LEFT[0] != AGENT_NODE_NAME[0];
    forall name | name in NodeNames(FiftyNew(parameters)) ensures name !in w.nodes {
    }
  }

  lemma LiveBefore(parameters: Value)
    ensures forall name :: name in LiveByName(Before(parameters)) ==> name == LEFT || name == AGENT_NODE_NAME
  {
    var existing := Before(parameters);
    assert existing[..1][..0] == [];
    assert LiveByName(existing[..1][..0]) == map[];
    assert existing[..1] == [existing[0]];
  }

  lemma RemovalsBefore(parameters: Value, keep: set<string>, catalogue: set<string>)
    requires LEFT in catalogue && LEFT !in keep
    ensures Removals(Before(parameters), keep, catalogue) == [RemoveNode(LEFT)]
  {
    var existing := Before(parameters);
    assert existing[1..][0] == existing[1] && existing[1..][1..] == [];
    assert "agent"[0] != HTTP_TOOL_TYPE[0];
    assert Removals(existing[1..], keep, catalogue) == [];
  }

  /** One left-over node and fifty new ones are enough to split a node from its connection. */
  lemma EvenBatchesSplit(parameters: Value)
    ensures var nodes := FiftyNew(parameters);
            var ops := Operations(nodes, Before(parameters), NodeNames(nodes) + {LEFT});
            UniqueNodes(nodes) && |ops| == 101 && ops[99].AddNode?
  {
    var nodes := FiftyNew(parameters);
    FiftyNames(parameters);
    LiveBefore(parameters);
    hide AllNodeOps, LiveByName, Removals, FiftyNew, Before;
    RemovalsBefore(parameters, NodeNames(nodes), NodeNames(nodes) + {LEFT});
    FreshOps(nodes, LiveByName(Before(parameters)), 49);
  }

  // ---------- A cut-off run of these operations, told from the workflow it left ----------

  ghost predicate AllReadable(w: Workflow) {
    forall name :: name in w.nodes ==> Readable(w.nodes[name].parameters)
  }

  ghost predicate OpReadable(op: Operation) {
    match op
    case AddNode(_, p) => WellFormed(p)
    case UpdateNodeParameters(_, p) => WellFormed(p)
    case _ => true
  }

  lemma {:induction false} OpsReadable(nodes: seq<EmittedNode>, live: map<string, ExistingNode>, op: Operation)
    requires op in AllNodeOps(nodes, live) && forall i :: 0 <= i < |nodes| ==> WellFormed(nodes[i].parameters)
    ensures OpReadable(op)
  {
    hide WellFormed, Stable;
    if op !in NodeOps(nodes[0], live) { OpsReadable(nodes[1..], live, op); }
  }

  lemma {:induction false} ReadableAfter(ops: seq<Operation>, w: Workflow)
    requires AllReadable(w) && ApplyAll(ops, w).Some? && forall op :: op in ops ==> OpReadable(op)
    ensures AllReadable(ApplyAll(ops, w).value)
  {
    hide WellFormed;
    if ops != [] {
      assert ops[0] in ops && forall op :: op in ops[1..] ==> op in ops;
      ReadableAfter(ops[1..], Apply(ops[0], w).value);
    }
  }

  lemma {:induction false} Listed(names: set<string>) returns (s: seq<string>)
    ensures (forall name :: name in s <==> name in names) && forall i, j :: 0 <= i < j < |s| ==> s[i] != s[j]
    decreases |names|
  {
    if names == {} {
      s := [];
    } else {
      var name :| name in names;
      var rest := Listed(names - {name});
      s := [name] + rest;
      forall n ensures n in s <==> n in names {
        assert n in rest <==> n in names - {name};
      }
    }
  }

  /** A workflow can be told to a run: its nodes one by one. */
  lemma Describable(w: Workflow) returns (existing: seq<ExistingNode>)
    requires AllReadable(w)
    ensures Describes(existing, w)
  {
    hide WellFormed, Denote;
    var s := Listed(w.nodes.Keys);
    assert forall i :: 0 <= i < |s| ==> s[i] in s;
    existing := seq(|s|, i requires 0 <= i < |s| =>
      ExistingNode(s[i], w.nodes[s[i]].typ, w.nodes[s[i]].parameters));
    forall name | name in w.nodes ensures exists i :: 0 <= i < |existing| && existing[i].name == name {
      assert name in s;
      var i :| 0 <= i < |s| && s[i] == name;
      assert existing[i].name == name;
    }
  }

  /** Cut off behind their first hundred, the same operations leave a node that the next run does not attach. */
  lemma ResumedLeavesUnattached(parameters: Value) returns (cut: Workflow, again: seq<ExistingNode>)
    requires WellFormed(parameters)
    ensures var nodes := FiftyNew(parameters);
            var catalogue := NodeNames(nodes) + {LEFT};
            var ops := Operations(nodes, Before(parameters), catalogue);
            && Describes(Before(parameters), WorkflowBefore(parameters))
            && ApplyAll(BatchAt(ops, 0), WorkflowBefore(parameters)) == Some(cut) && Describes(again, cut)
            && var rerun := ApplyAll(Operations(nodes, again, catalogue), cut);
               rerun.Some? && exists i :: 0 <= i < |nodes| && nodes[i].name !in rerun.value.attached
  {
    hide FiftyNew, Before, WorkflowBefore, WellFormed, Removals, AllNodeOps, LiveByName, ApplyAll, Describes, Wired,
         AttachedBut, NodeNames, OpReadable, AllReadable;
    var nodes, w := FiftyNew(parameters), WorkflowBefore(parameters);
    var catalogue := NodeNames(nodes) + {LEFT};
    var ops := Operations(nodes, Before(parameters), catalogue);
    FiftyNames(parameters);
    BeforeIsWired(parameters);
    EvenBatchesSplit(parameters);
    FirstRunGoes(nodes, Before(parameters), catalogue, w);
    var batches := [BatchAt(ops, 0), BatchAt(ops, 1)];
    ApplyAllConcat(BatchAt(ops, 0), BatchAt(ops, 1), w);
    assert ops == BatchAt(ops, 0) + BatchAt(ops, 1);
    cut := ApplyAll(BatchAt(ops, 0), w).value;
    FirstReadable(parameters, ops, cut);
    again := Describable(cut);
    OneBatch(batches, w);
    ResumedAttachesExactly(nodes, Before(parameters), catalogue, w, batches, 1, cut, again);
  }

  lemma OneBatch(batches: seq<seq<Operation>>, w: Workflow)
    requires batches != []
    ensures ApplyBatches(batches[..1], w) == ApplyAll(batches[0], w)
  {
    assert batches[..1] == [batches[0]] && [batches[0]][1..] == [];
  }

  lemma FirstRunGoes(nodes: seq<EmittedNode>, existing: seq<ExistingNode>, catalogue: set<string>, w: Workflow)
    requires UniqueNodes(nodes) && forall i :: 0 <= i < |nodes| ==> WellFormed(nodes[i].parameters)
    requires Describes(existing, w) && Wired(nodes, catalogue, w)
    ensures ApplyAll(Operations(nodes, existing, catalogue), w).Some?
  {
    hide Operations, Describes, WellFormed, ApplyAll, Clashes;
    forall i | 0 <= i < |nodes| ensures !Clashes(nodes[i], LiveByName(existing)) {
      NoClashes(nodes, existing, catalogue, w, i);
    }
    OperationsReconcile(nodes, existing, catalogue, w);
  }

  lemma FirstReadable(parameters: Value, ops: seq<Operation>, cut: Workflow)
    requires WellFormed(parameters)
    requires var nodes := FiftyNew(parameters); ops == Operations(nodes, Before(parameters), NodeNames(nodes) + {LEFT})
    requires |ops| > 0 && ApplyAll(BatchAt(ops, 0), WorkflowBefore(parameters)) == Some(cut)
    ensures AllReadable(cut)
  {
    StartReadable(parameters);
    hide WellFormed, Operations, ApplyAll, FiftyNew, Before, WorkflowBefore, AllReadable, OpReadable;
    forall op | op in BatchAt(ops, 0) ensures OpReadable(op) {
      assert op in ops;
      EachReadable(parameters, ops, op);
    }
    ReadableAfter(BatchAt(ops, 0), WorkflowBefore(parameters));
  }

  lemma StartReadable(parameters: Value)
    requires WellFormed(parameters)
    ensures AllReadable(WorkflowBefore(parameters))
  {
    hide WellFormed;
  }

  lemma EachReadable(parameters: Value, ops: seq<Operation>, op: Operation)
    requires WellFormed(parameters) && op in ops
    requires var nodes := FiftyNew(parameters); ops == Operations(nodes, Before(parameters), NodeNames(nodes) + {LEFT})
    ensures OpReadable(op)
  {
    hide WellFormed, AllNodeOps, LiveByName, FiftyNew, Removals, Before;
    var nodes := FiftyNew(parameters);
    FiftyNames(parameters);
    RemovalsBefore(parameters, NodeNames(nodes), NodeNames(nodes) + {LEFT});
    if op != RemoveNode(LEFT) { OpsReadable(nodes, LiveByName(Before(parameters)), op); }
  }
}
