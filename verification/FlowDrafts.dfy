/** Creating or reusing form drafts on the business account: `draftOrNewFlow`. */
module FlowDrafts {
  import opened Collections
  import opened Options
  import FlowChecker

  /** Every status but the two the script names counts as live. */
  datatype Status = Draft | Deprecated | Live

  datatype Flow = Flow(name: string, status: Status)

  type Flows = map<string, Flow>

  /** The listing asks for one page of a hundred. */
  const PAGE: nat := 100

  /** What one page may show: different ids on the account, all of them if they fit. */
  ghost predicate Listing(flows: Flows, shown: seq<string>) {
    && (forall i :: 0 <= i < |shown| ==> shown[i] in flows)
    && (forall i, j :: 0 <= i < j < |shown| ==> shown[i] != shown[j])
    && |shown| == if |flows| <= PAGE then |flows| else PAGE
  }

  /** Whether each call came back, and the id of the flow the create call made, if it made one. */
  datatype Answers = Answers(listed: bool, restated: bool, made: Option<string>, told: bool)

  ghost predicate Fresh(flows: Flows, a: Answers) {
    a.made.Some? ==> a.made.value !in flows
  }

  /** `sameName.find(…)`. */
  function Find(flows: Flows, shown: seq<string>, name: string, status: Status): (r: Option<string>)
    requires forall i :: 0 <= i < |shown| ==> shown[i] in flows
    ensures r.Some? ==> r.value in shown && r.value in flows && flows[r.value] == Flow(name, status)
    ensures r == None ==> forall id :: id in shown ==> flows[id] != Flow(name, status)
  {
    if shown == [] then None
    else if flows[shown[0]] == Flow(name, status) then Some(shown[0])
    else Find(flows, shown[1..], name, status)
  }

  // ---------- One call ----------

  predicate Creates(flows: Flows, shown: seq<string>, name: string, a: Answers)
    requires forall i :: 0 <= i < |shown| ==> shown[i] in flows
  {
    a.listed && Find(flows, shown, name, Live) == None && Find(flows, shown, name, Draft) == None && a.made.Some?
  }

  function After(flows: Flows, shown: seq<string>, name: string, a: Answers): Flows
    requires forall i :: 0 <= i < |shown| ==> shown[i] in flows
  {
    if Creates(flows, shown, name, a) then flows[a.made.value := Flow(name, Draft)] else flows
  }

  /** The page shows a form of this name and status. */
  ghost predicate Shown(flows: Flows, shown: seq<string>, name: string, status: Status)
    requires forall i :: 0 <= i < |shown| ==> shown[i] in flows
  {
    exists i :: 0 <= i < |shown| && flows[shown[i]] == Flow(name, status)
  }

  /** No draft of the name is shown above this one. */
  ghost predicate IsFirst(flows: Flows, shown: seq<string>, name: string, id: string)
    requires forall i :: 0 <= i < |shown| ==> shown[i] in flows
  {
    exists i :: 0 <= i < |shown| && shown[i] == id && flows[id] == Flow(name, Draft)
                && forall j :: 0 <= j < i ==> flows[shown[j]] != Flow(name, Draft)
  }

  lemma {:induction false} FindExactly(flows: Flows, shown: seq<string>, name: string, status: Status)
    requires forall i :: 0 <= i < |shown| ==> shown[i] in flows
    ensures Find(flows, shown, name, status) == None <==> !Shown(flows, shown, name, status)
    ensures status == Draft && Find(flows, shown, name, status).Some? ==>
              IsFirst(flows, shown, name, Find(flows, shown, name, status).value)
  {
    if shown != [] && flows[shown[0]] != Flow(name, status) {
      FindExactly(flows, shown[1..], name, status);
      assert forall i :: 0 < i < |shown| ==> shown[i] == shown[1..][i - 1];
    }
  }

  class Account {
    var flows: Flows

    /** The id to upload into is that of the first draft shown of the name, or of a new one where the page shows
        neither a draft nor a live form of it; a shown live form is left alone and answered with nothing. */
    method DraftOrNewFlow(name: string, shown: seq<string>, a: Answers) returns (flowId: Option<string>)
      requires Listing(flows, shown) && Fresh(flows, a)
      modifies this
      ensures flows == After(old(flows), shown, name, a)
      ensures !a.listed || Shown(old(flows), shown, name, Live) ==> flowId == None && flows == old(flows)
      ensures a.listed && !Shown(old(flows), shown, name, Live) && Shown(old(flows), shown, name, Draft) ==>
                && flows == old(flows) && (flowId.Some? <==> a.restated)
                && (flowId.Some? ==> IsFirst(old(flows), shown, name, flowId.value))
      ensures a.listed && !Shown(old(flows), shown, name, Live) && !Shown(old(flows), shown, name, Draft) ==>
                match a.made
                case None => flowId == None && flows == old(flows)
                case Some(id) =>
                  flows == old(flows)[id := Flow(name, Draft)] && flowId == if a.told then Some(id) else None
      ensures flowId.Some? ==> flowId.value in flows && flows[flowId.value] == Flow(name, Draft)
    {
      FindExactly(flows, shown, name, Live);
      FindExactly(flows, shown, name, Draft);
      hide Find, Shown, IsFirst, Listing;
      flowId := None;
      if !a.listed { return; }
      var live := Find(flows, shown, name, Live);
      if live.Some? { return; }
      var draft := Find(flows, shown, name, Draft);
      if draft.Some? {
        if a.restated { flowId := draft; }
        return;
      }
      if a.made.Some? {
        flows := flows[a.made.value := Flow(name, Draft)];
        if a.told { flowId := a.made; }
      }
    }
  }

  // ---------- A page shows everything on a small account ----------

  lemma ShowsAll(flows: Flows, shown: seq<string>, id: string)
    requires Listing(flows, shown) && |flows| <= PAGE && id in flows
    ensures id in shown
  {
    FlowChecker.DistinctSize(shown);
    var seen := FlowChecker.IdSet(shown);
    assert seen <= flows.Keys && |flows.Keys| == |flows|;
    if id !in shown {
      assert seen + {id} <= flows.Keys;
      SubsetSize(seen + {id}, flows.Keys);
      assert false;
    }
  }

  // ---------- At most one form of a name stands ----------

  predicate Standing(flows: Flows, id: string, name: string) {
    id in flows && flows[id].name == name && flows[id].status != Deprecated
  }

  ghost predicate OneStanding(flows: Flows, name: string) {
    forall a, b :: Standing(flows, a, name) && Standing(flows, b, name) ==> a == b
  }

  /** A call that creates saw no standing form of the name. */
  lemma CreatesUnseen(flows: Flows, shown: seq<string>, name: string, a: Answers, id: string)
    requires Listing(flows, shown) && Creates(flows, shown, name, a) && Standing(flows, id, name)
    ensures id !in shown
  {
    var f := flows[id];
    assert f == Flow(name, f.status) && (f.status == Draft || f.status == Live);
  }

  lemma CallKeepsOneStanding(flows: Flows, shown: seq<string>, name: string, a: Answers, n: string)
    requires Listing(flows, shown) && Fresh(flows, a) && |flows| <= PAGE && OneStanding(flows, n)
    ensures OneStanding(After(flows, shown, name, a), n)
  {
    hide Find;
    if Creates(flows, shown, name, a) && n == name {
      forall id | id in flows ensures !Standing(flows, id, name) {
        ShowsAll(flows, shown, id);
        if Standing(flows, id, name) { CreatesUnseen(flows, shown, name, a, id); }
      }
      NoneStandingKeepsOne(flows, shown, name, a);
    } else {
      forall x | Standing(After(flows, shown, name, a), x, n) ensures Standing(flows, x, n) {
      }
    }
  }

  /** A live form is never superseded while the account fits one page. */
  lemma LiveIsRefused(flows: Flows, shown: seq<string>, name: string, a: Answers, id: string)
    requires Listing(flows, shown) && |flows| <= PAGE && id in flows && flows[id] == Flow(name, Live)
    ensures Find(flows, shown, name, Live).Some? && After(flows, shown, name, a) == flows
  {
    ShowsAll(flows, shown, id);
  }

  // ---------- Exactly when a second form can come about ----------

  lemma {:induction false} PickDistinct(ids: set<string>, n: nat) returns (s: seq<string>)
    requires n <= |ids|
    ensures |s| == n && (forall i :: 0 <= i < n ==> s[i] in ids) && forall i, j :: 0 <= i < j < n ==> s[i] != s[j]
    decreases n
  {
    if n == 0 {
      s := [];
    } else {
      var id :| id in ids;
      var rest := PickDistinct(ids - {id}, n - 1);
      s := [id] + rest;
    }
  }

  lemma {:induction false} LongerThanAll(ids: set<string>) returns (n: nat)
    ensures forall id :: id in ids ==> |id| < n
    decreases |ids|
  {
    if ids == {} {
      n := 0;
    } else {
      var id :| id in ids;
      var m := LongerThanAll(ids - {id});
      n := if |id| < m then m else |id| + 1;
    }
  }

  lemma NewId(flows: Flows) returns (id: string)
    ensures id !in flows
  {
    var n := LongerThanAll(flows.Keys);
    id := seq(n, i => 'a');
  }

  /** Some page and some answers let one call leave two standing forms of the name. */
  ghost predicate CanDouble(flows: Flows, name: string) {
    exists shown, a ::
      Listing(flows, shown) && Fresh(flows, a) && !OneStanding(After(flows, shown, name, a), name)
  }

  /** A second form of a name can come about exactly when one stands on an account that does not fit one page. */
  lemma SecondFormExactly(flows: Flows, name: string)
    requires OneStanding(flows, name)
    ensures CanDouble(flows, name) <==> |flows| > PAGE && exists id :: Standing(flows, id, name)
  {
    if id :| |flows| > PAGE && Standing(flows, id, name) {
      DoublesBehindThePage(flows, name, id);
    }
    if CanDouble(flows, name) {
      var shown, a :|
        Listing(flows, shown) && Fresh(flows, a) && !OneStanding(After(flows, shown, name, a), name);
      hide Find, Listing;
      if |flows| <= PAGE {
        CallKeepsOneStanding(flows, shown, name, a, name);
        assert false;
      }
      if !exists id :: Standing(flows, id, name) {
        NoneStandingKeepsOne(flows, shown, name, a);
        assert false;
      }
    }
  }

  lemma NoneStandingKeepsOne(flows: Flows, shown: seq<string>, name: string, a: Answers)
    requires Listing(flows, shown) && !exists id :: Standing(flows, id, name)
    ensures OneStanding(After(flows, shown, name, a), name)
  {
    hide Find;
    forall x, y | Standing(After(flows, shown, name, a), x, name) && Standing(After(flows, shown, name, a), y, name)
      ensures x == y
    {
      assert !Standing(flows, x, name) && !Standing(flows, y, name);
    }
  }

  lemma DoublesBehindThePage(flows: Flows, name: string, id: string)
    requires OneStanding(flows, name) && |flows| > PAGE && Standing(flows, id, name)
    ensures CanDouble(flows, name)
  {
    assert |flows.Keys| == |flows|;
    var shown := PickDistinct(flows.Keys - {id}, PAGE);
    var made := NewId(flows);
    var a := Answers(true, true, Some(made), true);
    assert Listing(flows, shown);
    forall x | x in shown ensures !Standing(flows, x, name) {
      assert x != id;
    }
    NothingShownCreates(flows, shown, name, a);
    var next := After(flows, shown, name, a);
    assert Standing(next, id, name) && Standing(next, made, name) && id != made;
    assert !OneStanding(next, name);
  }

  lemma NothingShownCreates(flows: Flows, shown: seq<string>, name: string, a: Answers)
    requires Listing(flows, shown) && a.listed && a.made.Some?
    requires forall x :: x in shown ==> !Standing(flows, x, name)
    ensures Creates(flows, shown, name, a)
  {
    var live, draft := Find(flows, shown, name, Live), Find(flows, shown, name, Draft);
    assert live.Some? ==> Standing(flows, live.value, name);
    assert draft.Some? ==> Standing(flows, draft.value, name);
  }

  // ---------- Any history of calls, publications, retirements and removals ----------

  datatype Step =
    | Call(name: string, shown: seq<string>, a: Answers)
    | Publish(id: string)
    | Retire(id: string)
    | Remove(id: string)

  ghost predicate Can(flows: Flows, s: Step) {
    match s
    case Call(_, shown, a) => Listing(flows, shown) && Fresh(flows, a)
    case Publish(id) => id in flows && flows[id].status == Draft
    case Retire(id) => id in flows && flows[id].status == Live
    case Remove(id) => id in flows && flows[id].status == Draft
  }

  ghost function Next(flows: Flows, s: Step): Flows
    requires Can(flows, s)
  {
    match s
    case Call(name, shown, a) => After(flows, shown, name, a)
    case Publish(id) => flows[id := flows[id].(status := Live)]
    case Retire(id) => flows[id := flows[id].(status := Deprecated)]
    case Remove(id) => flows - {id}
  }

  ghost predicate Run(flows: Flows, steps: seq<Step>, last: Flows)
    decreases steps
  {
    if steps == [] then last == flows
    else Can(flows, steps[0]) && Run(Next(flows, steps[0]), steps[1..], last)
  }

  /** Whenever the script calls, the account fits one page. */
  ghost predicate FitsOnePage(flows: Flows, steps: seq<Step>)
    decreases steps
  {
    steps != [] ==>
      && (steps[0].Call? ==> |flows| <= PAGE)
      && (Can(flows, steps[0]) ==> FitsOnePage(Next(flows, steps[0]), steps[1..]))
  }

  lemma StepKeepsOneStanding(flows: Flows, s: Step, name: string)
    requires Can(flows, s) && OneStanding(flows, name) && (s.Call? ==> |flows| <= PAGE)
    ensures OneStanding(Next(flows, s), name)
  {
    hide Find, Listing;
    if s.Call? {
      CallKeepsOneStanding(flows, s.shown, s.name, s.a, name);
    } else {
      forall x | Standing(Next(flows, s), x, name) ensures Standing(flows, x, name) {
      }
    }
  }

  /** While the account fits one page, no name ever has two standing forms, whatever calls are lost. */
  lemma {:induction false} OneFormOfEachName(flows: Flows, steps: seq<Step>, last: Flows, name: string)
    requires Run(flows, steps, last) && FitsOnePage(flows, steps) && OneStanding(flows, name)
    ensures OneStanding(last, name)
    decreases steps
  {
    hide Can, Next, OneStanding;
    if steps != [] {
      StepKeepsOneStanding(flows, steps[0], name);
      OneFormOfEachName(Next(flows, steps[0]), steps[1..], last, name);
    }
  }

  /** On an account of any size, a form once live is never made a draft again by any step. */
  lemma {:induction false} LiveStaysUnlessRetired(flows: Flows, steps: seq<Step>, last: Flows, id: string)
    requires Run(flows, steps, last) && id in flows && flows[id].status != Draft
    ensures id in last && last[id].name == flows[id].name && last[id].status != Draft
    ensures Retire(id) !in steps ==> last[id] == flows[id]
    decreases steps
  {
    hide Find, Listing;
    if steps != [] {
      LiveStaysUnlessRetired(Next(flows, steps[0]), steps[1..], last, id);
    }
  }
}
