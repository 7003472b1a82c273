/** Moving the legacy delivery-fee refunds into refund requests: rows are grouped per order, each group
    becomes one request, and its rows are linked to it. */
module RefundConversion {
  import opened Options

  datatype RowStatus = ManualRequired | Processing | Completed

  /** One delivery-fee refund owed. `request` is the request that claims it, `rejected` one that was turned down. */
  datatype Row = Row(id: nat, order: string, status: RowStatus, amount: int, request: Option<nat>,
                     rejected: Option<nat>)

  /** A refund request of an order; its id is its place in the collection. `rows` are the row ids its
      reason names. */
  datatype Request = Request(order: string, amount: int, open: bool, rows: seq<nat>)

  /** Both collections, the rows in the order they were created. */
  datatype Queue = Queue(rows: seq<Row>, requests: seq<Request>)

  /** What the two writes for an order come to: `create` refuses, the link is lost, or both are done. */
  datatype Outcome = Refused | LinkLost | Done

  type Outcomes = string -> Outcome

  datatype Verdict = Raised | Skipped | Failed

  predicate Selectable(r: Row) {
    r.status == ManualRequired && r.request.None? && r.rejected.None?
  }

  function Selected(rows: seq<Row>): seq<Row> {
    if rows == [] then []
    else Selected(rows[..|rows| - 1]) + if Selectable(rows[|rows| - 1]) then [rows[|rows| - 1]] else []
  }

  function RowsOf(rows: seq<Row>, order: string): seq<Row> {
    if rows == [] then []
    else RowsOf(rows[..|rows| - 1], order) + if rows[|rows| - 1].order == order then [rows[|rows| - 1]] else []
  }

  /** The orders that have rows, each once, as they first come up. */
  function Orders(rows: seq<Row>): seq<string> {
    if rows == [] then []
    else
      var r, last := Orders(rows[..|rows| - 1]), rows[|rows| - 1].order;
      if last in r then r else r + [last]
  }

  function Total(rows: seq<Row>): int {
    if rows == [] then 0 else Total(rows[..|rows| - 1]) + rows[|rows| - 1].amount
  }

  function IdsOf(rows: seq<Row>): (r: seq<nat>)
    ensures |r| == |rows| && forall i :: 0 <= i < |r| ==> r[i] == rows[i].id
  {
    seq(|rows|, i requires 0 <= i < |rows| => rows[i].id)
  }

  predicate HasOpen(requests: seq<Request>, order: string) {
    exists k :: 0 <= k < |requests| && requests[k].open && requests[k].order == order
  }

  predicate HasProcessing(rows: seq<Row>, order: string) {
    exists i :: 0 <= i < |rows| && rows[i].order == order && rows[i].status == Processing
  }

  /** `updateMany` on the rows named that are still open to it. */
  function Linked(rows: seq<Row>, ids: seq<nat>, k: nat): (r: seq<Row>)
    ensures |r| == |rows|
    ensures forall i :: 0 <= i < |rows| ==> r[i] == LinkedRow(rows[i], ids, k)
  {
    seq(|rows|, i requires 0 <= i < |rows| => LinkedRow(rows[i], ids, k))
  }

  function LinkedRow(r: Row, ids: seq<nat>, k: nat): Row {
    if r.id in ids && r.status == ManualRequired && r.request.None? then r.(request := Some(k)) else r
  }

  /** One order's turn. */
  function ConvertOrder(q: Queue, order: string, group: seq<Row>, dryRun: bool, outcome: Outcome): (Queue, Verdict) {
    if HasOpen(q.requests, order) || HasProcessing(q.rows, order) then (q, Skipped)
    else if dryRun then (q, Raised)
    else if outcome.Refused? then (q, Failed)
    else
      var requests := q.requests + [Request(order, Total(group), true, IdsOf(group))];
      if outcome.LinkLost? then (Queue(q.rows, requests), Failed)
      else (Queue(Linked(q.rows, IdsOf(group), |q.requests|), requests), Raised)
  }

  /** The queue after the first orders have had their turn. */
  function AfterOrders(q: Queue, selected: seq<Row>, orders: seq<string>, dryRun: bool, outcomes: Outcomes): Queue {
    if orders == [] then q
    else
      var o := orders[|orders| - 1];
      ConvertOrder(AfterOrders(q, selected, orders[..|orders| - 1], dryRun, outcomes), o, RowsOf(selected, o), dryRun,
                   outcomes(o)).0
  }

  function VerdictOn(q: Queue, selected: seq<Row>, orders: seq<string>, dryRun: bool, outcomes: Outcomes,
                     i: nat): Verdict
    requires i < |orders|
  {
    ConvertOrder(AfterOrders(q, selected, orders[..i], dryRun, outcomes), orders[i], RowsOf(selected, orders[i]),
                 dryRun, outcomes(orders[i])).1
  }

  /** How many of the first `n` orders came out so. */
  function CountOf(q: Queue, selected: seq<Row>, orders: seq<string>, dryRun: bool, outcomes: Outcomes, v: Verdict,
                   n: nat): nat
    requires n <= |orders|
  {
    if n == 0 then 0
    else
      CountOf(q, selected, orders, dryRun, outcomes, v, n - 1)
      + if VerdictOn(q, selected, orders, dryRun, outcomes, n - 1) == v then 1 else 0
  }

  function AfterRun(q: Queue, dryRun: bool, outcomes: Outcomes): Queue {
    AfterOrders(q, Selected(q.rows), Orders(Selected(q.rows)), dryRun, outcomes)
  }

  class Conversion {
    var rows: seq<Row>
    var requests: seq<Request>

    constructor (q: Queue)
      ensures rows == q.rows && requests == q.requests
    {
      rows := q.rows;
      requests := q.requests;
    }

    function State(): Queue
      reads this
    {
      Queue(rows, requests)
    }

    /** One order's turn, its writes one after the other. */
    method Turn(orderId: string, orderRows: seq<Row>, dryRun: bool, outcome: Outcome) returns (v: Verdict)
      modifies this
      ensures (State(), v) == ConvertOrder(old(State()), orderId, orderRows, dryRun, outcome)
    {
      hide HasOpen, HasProcessing, Total, IdsOf, Linked;
      var total := Total(orderRows);
      if HasOpen(requests, orderId) { return Skipped; }
      if HasProcessing(rows, orderId) { return Skipped; }
      if dryRun { return Raised; }
      if outcome.Refused? { return Failed; }
      var k := |requests|;
      requests := requests + [Request(orderId, total, true, IdsOf(orderRows))];
      if outcome.LinkLost? { return Failed; }
      rows := Linked(rows, IdsOf(orderRows), k);
      return Raised;
    }

    method MigrateDeliveryFeeRows(dryRun: bool, outcomes: Outcomes) returns (raised: nat, skipped: nat, failed: nat)
      modifies this
      ensures State() == AfterRun(old(State()), dryRun, outcomes)
      ensures var selected := Selected(old(rows));
              var orders := Orders(selected);
              && raised == CountOf(old(State()), selected, orders, dryRun, outcomes, Raised, |orders|)
              && skipped == CountOf(old(State()), selected, orders, dryRun, outcomes, Skipped, |orders|)
              && failed == CountOf(old(State()), selected, orders, dryRun, outcomes, Failed, |orders|)
              && raised + skipped + failed == |orders|
      ensures dryRun ==> State() == old(State())
      ensures !dryRun ==> |old(requests)| + raised <= |requests| <= |old(requests)| + raised + failed
      ensures !dryRun && (forall o :: outcomes(o) != LinkLost) ==> |requests| == |old(requests)| + raised
    {
      hide Selected, RowsOf, Orders, ConvertOrder, AfterOrders;
      ghost var was := State();
      var selected := Selected(rows);
      var byOrder: map<string, seq<Row>>, orders: seq<string>;
      byOrder, orders := GroupRows(selected);
      raised, skipped, failed := 0, 0, 0;
      NoTurn(was, selected, orders, dryRun, outcomes);
      for n := 0 to |orders|
        invariant State() == AfterOrders(was, selected, orders[..n], dryRun, outcomes)
        invariant raised == CountOf(was, selected, orders, dryRun, outcomes, Raised, n)
        invariant skipped == CountOf(was, selected, orders, dryRun, outcomes, Skipped, n)
        invariant failed == CountOf(was, selected, orders, dryRun, outcomes, Failed, n)
      {
        AfterTurn(was, selected, orders, dryRun, outcomes, n);
        var v := Turn(orders[n], byOrder[orders[n]], dryRun, outcomes(orders[n]));
        match v {
          case Raised => raised := raised + 1;
          case Skipped => skipped := skipped + 1;
          case Failed => failed := failed + 1;
        }
      }
      assert orders[..|orders|] == orders;
      EveryOrderCounted(was, selected, orders, dryRun, outcomes, |orders|);
      RequestsCounted(was, selected, orders, dryRun, outcomes, |orders|);
    }
  }

  lemma NoTurn(q: Queue, selected: seq<Row>, orders: seq<string>, dryRun: bool, outcomes: Outcomes)
    ensures AfterOrders(q, selected, orders[..0], dryRun, outcomes) == q
  {
  }

  lemma AfterTurn(q: Queue, selected: seq<Row>, orders: seq<string>, dryRun: bool, outcomes: Outcomes, n: nat)
    requires n < |orders|
    ensures var before := AfterOrders(q, selected, orders[..n], dryRun, outcomes);
            var turn := ConvertOrder(before, orders[n], RowsOf(selected, orders[n]), dryRun, outcomes(orders[n]));
            && AfterOrders(q, selected, orders[..n + 1], dryRun, outcomes) == turn.0
            && VerdictOn(q, selected, orders, dryRun, outcomes, n) == turn.1
  {
    hide ConvertOrder, RowsOf;
    assert orders[..n + 1][..n] == orders[..n];
  }

  /** The groups of the first rows: `byOrder` as a map, its keys in the order they went in. */
  ghost predicate Grouped(selected: seq<Row>, byOrder: map<string, seq<Row>>, orders: seq<string>) {
    && orders == Orders(selected)
    && (forall o :: o in byOrder <==> o in orders)
    && (forall o :: o in byOrder ==> byOrder[o] == RowsOf(selected, o))
    && forall o :: o !in byOrder ==> RowsOf(selected, o) == []
  }

  method GroupRows(selected: seq<Row>) returns (byOrder: map<string, seq<Row>>, orders: seq<string>)
    ensures Grouped(selected, byOrder, orders)
  {
    hide Grouped;
    byOrder, orders := map[], [];
    NothingGrouped(selected);
    for i := 0 to |selected|
      invariant Grouped(selected[..i], byOrder, orders)
    {
      GroupedStep(selected, i, byOrder, orders);
      var key := selected[i].order;
      if key !in byOrder { orders := orders + [key]; }
      byOrder := byOrder[key := (if key in byOrder then byOrder[key] else []) + [selected[i]]];
    }
    assert selected[..|selected|] == selected;
  }

  lemma NothingGrouped(selected: seq<Row>)
    ensures Grouped(selected[..0], map[], [])
  {
  }

  lemma GroupOf(selected: seq<Row>, byOrder: map<string, seq<Row>>, orders: seq<string>, o: string)
    requires Grouped(selected, byOrder, orders)
    ensures o in byOrder <==> o in orders
    ensures RowsOf(selected, o) == if o in byOrder then byOrder[o] else []
  {
  }

  lemma GroupsAre(selected: seq<Row>, byOrder: map<string, seq<Row>>, orders: seq<string>)
    requires orders == Orders(selected)
    requires forall o :: (o in byOrder <==> o in orders)
                         && RowsOf(selected, o) == if o in byOrder then byOrder[o] else []
    ensures Grouped(selected, byOrder, orders)
  {
  }

  lemma GroupedStep(selected: seq<Row>, i: nat, byOrder: map<string, seq<Row>>, orders: seq<string>)
    requires i < |selected| && Grouped(selected[..i], byOrder, orders)
    ensures var key := selected[i].order;
            Grouped(selected[..i + 1],
                    byOrder[key := (if key in byOrder then byOrder[key] else []) + [selected[i]]],
                    if key in byOrder then orders else orders + [key])
  {
    var key := selected[i].order;
    var after := byOrder[key := (if key in byOrder then byOrder[key] else []) + [selected[i]]];
    var orders' := if key in byOrder then orders else orders + [key];
    assert orders == Orders(selected[..i]);
    OrdersSnoc(selected, i);
    hide Orders, RowsOf, Grouped;
    GroupOf(selected[..i], byOrder, orders, key);
    forall o ensures (o in after <==> o in orders')
                     && RowsOf(selected[..i + 1], o) == if o in after then after[o] else []
    {
      GroupOf(selected[..i], byOrder, orders, o);
      RowsSnoc(selected, i, o);
      assert RowsOf(selected[..i], o) + [] == RowsOf(selected[..i], o);
    }
    GroupsAre(selected[..i + 1], after, orders');
  }

  lemma OrdersSnoc(rows: seq<Row>, i: nat)
    requires i < |rows|
    ensures var r := Orders(rows[..i]);
            Orders(rows[..i + 1]) == if rows[i].order in r then r else r + [rows[i].order]
  {
    assert rows[..i + 1][..i] == rows[..i];
  }

  lemma RowsSnoc(rows: seq<Row>, i: nat, o: string)
    requires i < |rows|
    ensures RowsOf(rows[..i + 1], o) == RowsOf(rows[..i], o) + if rows[i].order == o then [rows[i]] else []
  {
    assert rows[..i + 1][..i] == rows[..i];
  }

  // ---------- What one order's turn does ----------

  /** A request of the order is open, or one of its rows is still processing. */
  ghost predicate Blocked(q: Queue, order: string) {
    || (exists r :: r in q.requests && r.order == order && r.open)
    || (exists r :: r in q.rows && r.order == order && r.status == Processing)
  }

  lemma BlockedIs(q: Queue, order: string)
    ensures HasOpen(q.requests, order) || HasProcessing(q.rows, order) <==> Blocked(q, order)
  {
    if r :| r in q.requests && r.order == order && r.open {
      var k :| 0 <= k < |q.requests| && q.requests[k] == r;
      assert HasOpen(q.requests, order);
    }
    if r :| r in q.rows && r.order == order && r.status == Processing {
      var i :| 0 <= i < |q.rows| && q.rows[i] == r;
      assert HasProcessing(q.rows, order);
    }
    if k :| 0 <= k < |q.requests| && q.requests[k].open && q.requests[k].order == order {
      assert q.requests[k] in q.requests;
    }
    if i :| 0 <= i < |q.rows| && q.rows[i].order == order && q.rows[i].status == Processing {
      assert q.rows[i] in q.rows;
    }
  }

  /** The rows the request names that are still owed and unclaimed, each now linked to it. */
  ghost predicate LinkedTo(rows: seq<Row>, after: seq<Row>, group: seq<Row>, k: nat) {
    && |after| == |rows|
    && forall i :: 0 <= i < |rows| ==>
         after[i] == if (exists g :: g in group && g.id == rows[i].id) && rows[i].status == ManualRequired
                        && rows[i].request == None
                     then rows[i].(request := Some(k)) else rows[i]
  }

  lemma LinkedIs(rows: seq<Row>, group: seq<Row>, k: nat)
    ensures LinkedTo(rows, Linked(rows, IdsOf(group), k), group, k)
  {
    var ids := IdsOf(group);
    forall i | 0 <= i < |rows| ensures rows[i].id in ids <==> exists g :: g in group && g.id == rows[i].id {
      if rows[i].id in ids {
        var j :| 0 <= j < |ids| && ids[j] == rows[i].id;
        assert group[j] in group;
      }
      if g :| g in group && g.id == rows[i].id {
        var j :| 0 <= j < |group| && group[j] == g;
        assert ids[j] == rows[i].id;
      }
    }
  }

  /** A blocked order is skipped and a rehearsal or a refusal changes nothing; otherwise one open request is added
      that asks for the group's total and names its rows, and unless the link is lost they are linked to it. */
  lemma TurnExactly(q: Queue, order: string, group: seq<Row>, dryRun: bool, outcome: Outcome)
    ensures var (after, v) := ConvertOrder(q, order, group, dryRun, outcome);
            && (Blocked(q, order) ==> v == Skipped && after == q)
            && (!Blocked(q, order) && dryRun ==> v == Raised && after == q)
            && (!Blocked(q, order) && !dryRun && outcome == Refused ==> v == Failed && after == q)
            && (!Blocked(q, order) && !dryRun && outcome != Refused ==>
                  && |after.requests| == |q.requests| + 1 && after.requests[..|q.requests|] == q.requests
                  && after.requests[|q.requests|] == Request(order, Total(group), true, IdsOf(group))
                  && (if outcome == LinkLost then v == Failed && after.rows == q.rows
                      else v == Raised && LinkedTo(q.rows, after.rows, group, |q.requests|)))
  {
    BlockedIs(q, order);
    LinkedIs(q.rows, group, |q.requests|);
    hide HasOpen, HasProcessing, Blocked, Linked, LinkedTo, IdsOf, Total;
  }

  /** Selected are the rows still owed that no request names or turned down: each as often as it is there, in order. */
  lemma SelectedExactly(before: seq<Row>, x: Row, after: seq<Row>)
    ensures Selected(before + [x] + after) ==
            Selected(before)
            + (if x.status == ManualRequired && x.request == None && x.rejected == None then [x] else [])
            + Selected(after)
  {
    SelectedConcat(before + [x], after);
    assert (before + [x])[..|before|] == before;
  }

  lemma {:induction false} SelectedConcat(a: seq<Row>, b: seq<Row>)
    ensures Selected(a + b) == Selected(a) + Selected(b)
  {
    if b == [] {
      assert a + b == a;
    } else {
      assert (a + b)[..|a + b| - 1] == a + b[..|b| - 1];
      SelectedConcat(a, b[..|b| - 1]);
    }
  }

  lemma {:induction false} TotalConcat(a: seq<Row>, b: seq<Row>)
    ensures Total(a + b) == Total(a) + Total(b)
  {
    if b == [] {
      assert a + b == a;
    } else {
      assert (a + b)[..|a + b| - 1] == a + b[..|b| - 1];
      TotalConcat(a, b[..|b| - 1]);
    }
  }

  /** Every row's amount counts once. */
  lemma TotalExactly(before: seq<Row>, x: Row, after: seq<Row>)
    ensures Total([]) == 0
    ensures Total(before + [x] + after) == Total(before) + x.amount + Total(after)
  {
    TotalConcat(before + [x], after);
    assert (before + [x])[..|before|] == before;
  }

  // ---------- Grouping loses nothing ----------

  lemma {:induction false} RowsOfMember(rows: seq<Row>, o: string, x: Row)
    ensures x in RowsOf(rows, o) <==> x in rows && x.order == o
  {
    if rows != [] {
      RowsOfMember(rows[..|rows| - 1], o, x);
      assert rows == rows[..|rows| - 1] + [rows[|rows| - 1]];
    }
  }

  lemma {:induction false} SelectedMember(rows: seq<Row>, x: Row)
    ensures x in Selected(rows) <==> x in rows && Selectable(x)
  {
    if rows != [] {
      SelectedMember(rows[..|rows| - 1], x);
      assert rows == rows[..|rows| - 1] + [rows[|rows| - 1]];
    }
  }

  predicate Distinct(orders: seq<string>) {
    forall i, j :: 0 <= i < j < |orders| ==> orders[i] != orders[j]
  }

  lemma {:induction false} OrdersDistinct(rows: seq<Row>)
    ensures Distinct(Orders(rows))
  {
    if rows != [] { OrdersDistinct(rows[..|rows| - 1]); }
  }

  lemma {:induction false} OrdersCover(rows: seq<Row>, i: nat)
    requires i < |rows|
    ensures rows[i].order in Orders(rows)
  {
    if i < |rows| - 1 { OrdersCover(rows[..|rows| - 1], i); }
  }

  /** The groups, one after the other. */
  function Regrouped(rows: seq<Row>, orders: seq<string>): seq<Row> {
    if orders == [] then [] else Regrouped(rows, orders[..|orders| - 1]) + RowsOf(rows, orders[|orders| - 1])
  }

  lemma {:induction false} RegroupedStep(rows: seq<Row>, orders: seq<string>)
    requires rows != [] && Distinct(orders)
    ensures multiset(Regrouped(rows, orders)) ==
            multiset(Regrouped(rows[..|rows| - 1], orders))
            + if rows[|rows| - 1].order in orders then multiset{rows[|rows| - 1]} else multiset{}
  {
    if orders != [] {
      assert orders == orders[..|orders| - 1] + [orders[|orders| - 1]];
      RegroupedStep(rows, orders[..|orders| - 1]);
    }
  }

  lemma {:induction false} RegroupedNone(orders: seq<string>)
    ensures Regrouped([], orders) == []
  {
    if orders != [] { RegroupedNone(orders[..|orders| - 1]); }
  }

  predicate AllIn(rows: seq<Row>, orders: seq<string>) {
    forall i :: 0 <= i < |rows| ==> rows[i].order in orders
  }

  lemma LastIn(rows: seq<Row>, orders: seq<string>)
    requires rows != [] && AllIn(rows, orders)
    ensures rows[|rows| - 1].order in orders && AllIn(rows[..|rows| - 1], orders)
  {
  }

  lemma MultisetSnoc(rows: seq<Row>)
    requires rows != []
    ensures multiset(rows) == multiset(rows[..|rows| - 1]) + multiset{rows[|rows| - 1]}
  {
    assert rows == rows[..|rows| - 1] + [rows[|rows| - 1]];
  }

  lemma {:induction false} RegroupedAll(rows: seq<Row>, orders: seq<string>)
    requires Distinct(orders) && AllIn(rows, orders)
    ensures multiset(Regrouped(rows, orders)) == multiset(rows)
  {
    hide Regrouped, Distinct, AllIn;
    if rows == [] {
      RegroupedNone(orders);
    } else {
      LastIn(rows, orders);
      RegroupedStep(rows, orders);
      RegroupedAll(rows[..|rows| - 1], orders);
      MultisetSnoc(rows);
    }
  }

  /** Each row is in the group of its order and in no other, once: the groups together are the rows. */
  lemma GroupingPartitions(rows: seq<Row>)
    ensures Distinct(Orders(rows)) && multiset(Regrouped(rows, Orders(rows))) == multiset(rows)
    ensures forall o, x :: x in RowsOf(rows, o) ==> x.order == o
  {
    OrdersDistinct(rows);
    forall i | 0 <= i < |rows| ensures rows[i].order in Orders(rows) { OrdersCover(rows, i); }
    assert AllIn(rows, Orders(rows));
    RegroupedAll(rows, Orders(rows));
    forall o, x | x in RowsOf(rows, o) ensures x.order == o { RowsOfMember(rows, o, x); }
  }

  function GroupTotals(rows: seq<Row>, orders: seq<string>): int {
    if orders == [] then 0 else GroupTotals(rows, orders[..|orders| - 1]) + Total(RowsOf(rows, orders[|orders| - 1]))
  }

  lemma {:induction false} GroupTotalsStep(rows: seq<Row>, orders: seq<string>)
    requires rows != [] && Distinct(orders)
    ensures GroupTotals(rows, orders) == GroupTotals(rows[..|rows| - 1], orders)
                                         + if rows[|rows| - 1].order in orders then rows[|rows| - 1].amount else 0
  {
    if orders != [] {
      assert orders == orders[..|orders| - 1] + [orders[|orders| - 1]];
      GroupTotalsStep(rows, orders[..|orders| - 1]);
      GroupTotalStep(rows, orders[|orders| - 1]);
      hide RowsOf;
    }
  }

  lemma GroupTotalStep(rows: seq<Row>, o: string)
    requires rows != []
    ensures Total(RowsOf(rows, o)) == Total(RowsOf(rows[..|rows| - 1], o))
                                      + if rows[|rows| - 1].order == o then rows[|rows| - 1].amount else 0
  {
    var before := RowsOf(rows[..|rows| - 1], o);
    TotalSnoc(before, rows[|rows| - 1]);
    assert before + [] == before;
  }

  lemma TotalSnoc(rows: seq<Row>, x: Row)
    ensures Total(rows + [x]) == Total(rows) + x.amount
  {
    assert (rows + [x])[..|rows|] == rows;
  }

  lemma {:induction false} GroupTotalsNone(orders: seq<string>)
    ensures GroupTotals([], orders) == 0
  {
    if orders != [] { GroupTotalsNone(orders[..|orders| - 1]); }
  }

  lemma {:induction false} GroupTotalsAll(rows: seq<Row>, orders: seq<string>)
    requires Distinct(orders) && AllIn(rows, orders)
    ensures GroupTotals(rows, orders) == Total(rows)
  {
    if rows == [] {
      GroupTotalsNone(orders);
    } else {
      GroupTotalsStep(rows, orders);
      GroupTotalsAll(rows[..|rows| - 1], orders);
    }
  }

  lemma TotalsAddUp(rows: seq<Row>)
    ensures GroupTotals(rows, Orders(rows)) == Total(rows)
  {
    OrdersDistinct(rows);
    forall i | 0 <= i < |rows| ensures rows[i].order in Orders(rows) { OrdersCover(rows, i); }
    assert AllIn(rows, Orders(rows));
    GroupTotalsAll(rows, Orders(rows));
  }

  /** Every order is counted once: raised, skipped or failed. */
  lemma {:induction false} EveryOrderCounted(q: Queue, selected: seq<Row>, orders: seq<string>, dryRun: bool,
                                             outcomes: Outcomes, n: nat)
    requires n <= |orders|
    ensures CountOf(q, selected, orders, dryRun, outcomes, Raised, n)
            + CountOf(q, selected, orders, dryRun, outcomes, Skipped, n)
            + CountOf(q, selected, orders, dryRun, outcomes, Failed, n) == n
  {
    hide VerdictOn;
    if n > 0 { EveryOrderCounted(q, selected, orders, dryRun, outcomes, n - 1); }
  }

  /** A rehearsal changes nothing; otherwise each order counted as raised has its request, and only an
      order counted as failed can have one besides, when its link was lost. */
  lemma {:induction false} RequestsCounted(q: Queue, selected: seq<Row>, orders: seq<string>, dryRun: bool,
                                           outcomes: Outcomes, n: nat)
    requires n <= |orders|
    ensures var after := AfterOrders(q, selected, orders[..n], dryRun, outcomes);
            var raised := CountOf(q, selected, orders, dryRun, outcomes, Raised, n);
            var failed := CountOf(q, selected, orders, dryRun, outcomes, Failed, n);
            && (dryRun ==> after == q)
            && (!dryRun ==> |q.requests| + raised <= |after.requests| <= |q.requests| + raised + failed)
            && (!dryRun && (forall o :: outcomes(o) != LinkLost) ==> |after.requests| == |q.requests| + raised)
  {
    hide AfterOrders, ConvertOrder, VerdictOn, RowsOf;
    if n == 0 {
      NoTurn(q, selected, orders, dryRun, outcomes);
    } else {
      RequestsCounted(q, selected, orders, dryRun, outcomes, n - 1);
      AfterTurn(q, selected, orders, dryRun, outcomes, n - 1);
      TurnCreates(AfterOrders(q, selected, orders[..n - 1], dryRun, outcomes), orders[n - 1],
                  RowsOf(selected, orders[n - 1]), dryRun, outcomes(orders[n - 1]));
    }
  }

  lemma TurnCreates(q: Queue, order: string, group: seq<Row>, dryRun: bool, outcome: Outcome)
    ensures var (after, v) := ConvertOrder(q, order, group, dryRun, outcome);
            && (dryRun ==> after == q)
            && |after.requests| == |q.requests|
                 + if !dryRun && (v == Raised || (v == Failed && outcome.LinkLost?)) then 1 else 0
  {
    hide HasOpen, HasProcessing, Total, IdsOf, Linked;
  }

  function Asked(requests: seq<Request>): int {
    if requests == [] then 0 else Asked(requests[..|requests| - 1]) + requests[|requests| - 1].amount
  }

  lemma AskedSnoc(requests: seq<Request>, r: Request)
    ensures Asked(requests + [r]) == Asked(requests) + r.amount
  {
    assert (requests + [r])[..|requests|] == requests;
  }

  /** The money of the orders, among the first `n`, for which no request was created. */
  function LeftBehind(q: Queue, selected: seq<Row>, orders: seq<string>, dryRun: bool, outcomes: Outcomes, n: nat): int
    requires n <= |orders|
  {
    if n == 0 then 0
    else
      var v := VerdictOn(q, selected, orders, dryRun, outcomes, n - 1);
      var created := !dryRun && (v == Raised || (v == Failed && outcomes(orders[n - 1]).LinkLost?));
      LeftBehind(q, selected, orders, dryRun, outcomes, n - 1)
      + if created then 0 else Total(RowsOf(selected, orders[n - 1]))
  }

  lemma {:induction false} AskedUpTo(q: Queue, selected: seq<Row>, orders: seq<string>, dryRun: bool,
                                     outcomes: Outcomes, n: nat)
    requires n <= |orders|
    ensures Asked(AfterOrders(q, selected, orders[..n], dryRun, outcomes).requests)
            == Asked(q.requests) + GroupTotals(selected, orders[..n])
               - LeftBehind(q, selected, orders, dryRun, outcomes, n)
  {
    hide RowsOf, Total, Asked, AfterOrders, ConvertOrder, VerdictOn;
    if n == 0 {
      NoTurn(q, selected, orders, dryRun, outcomes);
    } else {
      AskedUpTo(q, selected, orders, dryRun, outcomes, n - 1);
      AfterTurn(q, selected, orders, dryRun, outcomes, n - 1);
      AskedByTurn(AfterOrders(q, selected, orders[..n - 1], dryRun, outcomes), orders[n - 1],
                  RowsOf(selected, orders[n - 1]), dryRun, outcomes(orders[n - 1]));
      assert orders[..n][..n - 1] == orders[..n - 1];
    }
  }

  lemma AskedByTurn(q: Queue, order: string, group: seq<Row>, dryRun: bool, outcome: Outcome)
    ensures var (after, v) := ConvertOrder(q, order, group, dryRun, outcome);
            Asked(after.requests) == Asked(q.requests)
              + if !dryRun && (v == Raised || (v == Failed && outcome.LinkLost?)) then Total(group) else 0
  {
    AskedSnoc(q.requests, Request(order, Total(group), true, IdsOf(group)));
    hide Asked, Total, IdsOf, HasOpen, HasProcessing;
  }

  /** What a run asks for in requests, and what it leaves behind, come to what was selected. */
  lemma RunConservesMoney(q: Queue, dryRun: bool, outcomes: Outcomes)
    ensures var selected := Selected(q.rows);
            var orders := Orders(selected);
            Asked(AfterRun(q, dryRun, outcomes).requests) - Asked(q.requests)
            + LeftBehind(q, selected, orders, dryRun, outcomes, |orders|) == Total(selected)
  {
    var selected := Selected(q.rows);
    var orders := Orders(selected);
    AskedUpTo(q, selected, orders, dryRun, outcomes, |orders|);
    TotalsAddUp(selected);
    assert orders[..|orders|] == orders;
  }

  // ---------- Over any history ----------

  /** A run of the script, or something else that happens to the two collections: a request completes
      or is rejected, another path opens one, a new row is owed, a row is settled by hand. */
  datatype Step =
    | Run(dryRun: bool, outcomes: Outcomes)
    | Complete(k: nat)
    | Reject(k: nat)
    | OpenElsewhere(order: string, amount: int)
    | Owe(order: string, amount: int, status: RowStatus)
    | Settle(i: nat)

  /** A row may be settled by hand while it is owed, unlinked and its order has no open request. */
  predicate Settleable(q: Queue, i: nat)
    requires i < |q.rows|
  {
    q.rows[i].status == ManualRequired && q.rows[i].request.None? && !HasOpen(q.requests, q.rows[i].order)
  }

  function Closed(requests: seq<Request>, k: nat): seq<Request>
    requires k < |requests|
  {
    requests[k := requests[k].(open := false)]
  }

  function CompletedRow(r: Row, k: nat): Row {
    if r.request == Some(k) then r.(status := RowStatus.Completed) else r
  }

  function RejectedRow(r: Row, k: nat): Row {
    if r.request == Some(k) then r.(status := ManualRequired, request := None, rejected := Some(k)) else r
  }

  function Apply(q: Queue, step: Step): Queue {
    match step
    case Run(dryRun, outcomes) => AfterRun(q, dryRun, outcomes)
    case Complete(k) =>
      if k < |q.requests| && q.requests[k].open then
        Queue(seq(|q.rows|, i requires 0 <= i < |q.rows| => CompletedRow(q.rows[i], k)), Closed(q.requests, k))
      else q
    case Reject(k) =>
      if k < |q.requests| && q.requests[k].open then
        Queue(seq(|q.rows|, i requires 0 <= i < |q.rows| => RejectedRow(q.rows[i], k)), Closed(q.requests, k))
      else q
    case OpenElsewhere(order, amount) =>
      if HasOpen(q.requests, order) then q else Queue(q.rows, q.requests + [Request(order, amount, true, [])])
    case Owe(order, amount, status) => Queue(q.rows + [Row(|q.rows|, order, status, amount, None, None)], q.requests)
    case Settle(i) =>
      if i < |q.rows| && Settleable(q, i) then
        Queue(q.rows[i := q.rows[i].(status := RowStatus.Completed)], q.requests)
      else q
  }

  function ApplyAll(q: Queue, steps: seq<Step>): Queue {
    if steps == [] then q else Apply(ApplyAll(q, steps[..|steps| - 1]), steps[|steps| - 1])
  }

  /** Rows are named by their place; a link leads to a request of the row's order, and a linked row was
      not turned down. */
  predicate WellLinked(q: Queue) {
    && (forall i :: 0 <= i < |q.rows| ==> q.rows[i].id == i)
    && (forall i :: 0 <= i < |q.rows| && q.rows[i].request.Some? ==>
          q.rows[i].request.value < |q.requests| && q.requests[q.rows[i].request.value].order == q.rows[i].order
          && q.rows[i].rejected.None?)
    && forall i :: 0 <= i < |q.rows| && q.rows[i].rejected.Some? ==> q.rows[i].rejected.value < |q.requests|
  }

  predicate OneOpen(requests: seq<Request>) {
    forall j, k :: 0 <= j < k < |requests| && requests[j].open && requests[k].open ==>
      requests[j].order != requests[k].order
  }

  /** The money of the rows linked to request `k`. */
  function LinkedTotal(rows: seq<Row>, k: nat): int {
    if rows == [] then 0
    else LinkedTotal(rows[..|rows| - 1], k) + if rows[|rows| - 1].request == Some(k) then rows[|rows| - 1].amount else 0
  }

  predicate AnyLinked(rows: seq<Row>, k: nat) {
    exists i :: 0 <= i < |rows| && rows[i].request == Some(k)
  }

  /** Request `k` asks for just what its rows are owed. */
  predicate BalancedAt(q: Queue, k: nat)
    requires k < |q.requests|
  {
    AnyLinked(q.rows, k) ==> LinkedTotal(q.rows, k) == q.requests[k].amount
  }

  predicate Balanced(q: Queue) {
    forall k :: 0 <= k < |q.requests| ==> BalancedAt(q, k)
  }

  predicate Inv(q: Queue) {
    WellLinked(q) && OneOpen(q.requests) && Balanced(q)
  }

  /** The order's group is still what the rows say it is. */
  ghost predicate InStep(q: Queue, order: string, group: seq<Row>) {
    group == RowsOf(Selected(q.rows), order)
  }

  /** A row of the group, found in the rows. */
  lemma InGroup(q: Queue, order: string, group: seq<Row>, i: nat)
    requires WellLinked(q) && InStep(q, order, group) && i < |q.rows|
    ensures q.rows[i].id in IdsOf(group) <==> Selectable(q.rows[i]) && q.rows[i].order == order
  {
    var r := q.rows[i];
    SelectedMember(q.rows, r);
    RowsOfMember(Selected(q.rows), order, r);
    if r in group {
      var j :| 0 <= j < |group| && group[j] == r;
      assert IdsOf(group)[j] == r.id;
    }
    if r.id in IdsOf(group) {
      var j :| 0 <= j < |IdsOf(group)| && IdsOf(group)[j] == r.id;
      var g := group[j];
      RowsOfMember(Selected(q.rows), order, g);
      SelectedMember(q.rows, g);
      var m :| 0 <= m < |q.rows| && q.rows[m] == g;
      assert m == i;
    }
  }

  /** What linking does, row by row: the order's selectable rows are linked, no other row changes. */
  predicate LinksJust(rows: seq<Row>, after: seq<Row>, order: string, k: nat) {
    && |after| == |rows|
    && forall i :: 0 <= i < |rows| ==>
         after[i] == if Selectable(rows[i]) && rows[i].order == order then rows[i].(request := Some(k)) else rows[i]
  }

  lemma LinkingIsJust(q: Queue, order: string, group: seq<Row>)
    requires WellLinked(q) && InStep(q, order, group)
    ensures LinksJust(q.rows, Linked(q.rows, IdsOf(group), |q.requests|), order, |q.requests|)
  {
    hide InStep, WellLinked;
    forall i | 0 <= i < |q.rows|
      ensures q.rows[i].id in IdsOf(group) <==> Selectable(q.rows[i]) && q.rows[i].order == order
    {
      InGroup(q, order, group, i);
    }
  }

  lemma {:induction false} LinkedTotalIsGroup(rows: seq<Row>, after: seq<Row>, order: string, k: nat)
    requires LinksJust(rows, after, order, k) && forall i :: 0 <= i < |rows| ==> rows[i].request != Some(k)
    ensures LinkedTotal(after, k) == Total(RowsOf(Selected(rows), order))
  {
    if rows != [] {
      var n := |rows| - 1;
      LinkedTotalIsGroup(rows[..n], after[..n], order, k);
      SelectedTotalStep(rows, order);
    }
  }

  lemma SelectedTotalStep(rows: seq<Row>, order: string)
    requires rows != []
    ensures var last := rows[|rows| - 1];
            Total(RowsOf(Selected(rows), order)) == Total(RowsOf(Selected(rows[..|rows| - 1]), order))
              + if Selectable(last) && last.order == order then last.amount else 0
  {
    var before, last := Selected(rows[..|rows| - 1]), rows[|rows| - 1];
    if Selectable(last) {
      assert (before + [last])[..|before|] == before;
      GroupTotalStep(before + [last], order);
    } else {
      assert before + [] == before;
    }
  }

  lemma {:induction false} LinkedTotalSame(rows: seq<Row>, after: seq<Row>, k: nat)
    requires |rows| == |after|
    requires forall i :: 0 <= i < |rows| ==>
               after[i].amount == rows[i].amount && (after[i].request == Some(k) <==> rows[i].request == Some(k))
    ensures LinkedTotal(after, k) == LinkedTotal(rows, k)
  {
    if rows != [] { LinkedTotalSame(rows[..|rows| - 1], after[..|rows| - 1], k); }
  }

  /** Another order's group is untouched by a turn. */
  lemma {:induction false} OthersInStep(rows: seq<Row>, after: seq<Row>, order: string, k: nat, other: string)
    requires LinksJust(rows, after, order, k) && other != order
    ensures RowsOf(Selected(after), other) == RowsOf(Selected(rows), other)
  {
    if rows != [] {
      var n := |rows| - 1;
      OthersInStep(rows[..n], after[..n], order, k, other);
      GroupSnoc(rows, other);
      GroupSnoc(after, other);
    }
  }

  lemma GroupSnoc(rows: seq<Row>, order: string)
    requires rows != []
    ensures var last := rows[|rows| - 1];
            RowsOf(Selected(rows), order) == RowsOf(Selected(rows[..|rows| - 1]), order)
              + if Selectable(last) && last.order == order then [last] else []
  {
    var before, last := Selected(rows[..|rows| - 1]), rows[|rows| - 1];
    if Selectable(last) {
      assert (before + [last])[..|before|] == before;
    } else {
      assert before + [] == before;
      assert RowsOf(before, order) + [] == RowsOf(before, order);
    }
  }

  // One order's turn keeps the invariant.

  lemma RequestAdded(q: Queue, r: Request)
    requires Inv(q) && (r.open ==> !HasOpen(q.requests, r.order))
    ensures Inv(Queue(q.rows, q.requests + [r]))
  {
    var after := Queue(q.rows, q.requests + [r]);
    assert OneOpen(after.requests);
    forall k | 0 <= k < |after.requests| ensures BalancedAt(after, k) {
      if k < |q.requests| { assert BalancedAt(q, k); }
    }
  }

  lemma LinkedInv(q: Queue, after: seq<Row>, order: string, k: nat)
    requires Inv(q) && k + 1 == |q.requests| && q.requests[k].order == order
    requires LinksJust(q.rows, after, order, k) && q.requests[k].amount == Total(RowsOf(Selected(q.rows), order))
    requires forall i :: 0 <= i < |q.rows| ==> q.rows[i].request != Some(k)
    ensures Inv(Queue(after, q.requests))
  {
    var next := Queue(after, q.requests);
    forall m | 0 <= m < |q.requests| ensures BalancedAt(next, m) {
      if m == k {
        LinkedTotalIsGroup(q.rows, after, order, k);
      } else {
        assert BalancedAt(q, m);
        LinkedTotalSame(q.rows, after, m);
        if AnyLinked(after, m) {
          var i :| 0 <= i < |after| && after[i].request == Some(m);
          assert q.rows[i].request == Some(m);
        }
      }
    }
  }

  lemma TurnKeepsInv(q: Queue, order: string, group: seq<Row>, dryRun: bool, outcome: Outcome)
    requires Inv(q) && InStep(q, order, group)
    ensures Inv(ConvertOrder(q, order, group, dryRun, outcome).0)
  {
    hide Inv, Linked, IdsOf, InStep;
    if !HasOpen(q.requests, order) && !HasProcessing(q.rows, order) && !dryRun && !outcome.Refused? {
      var k, r := |q.requests|, Request(order, Total(group), true, IdsOf(group));
      RequestAdded(q, r);
      InvLinks(q, k);
      LinkingIsJust(q, order, group);
      InStepIs(q, order, group);
      LinkedInv(Queue(q.rows, q.requests + [r]), Linked(q.rows, IdsOf(group), k), order, k);
    }
  }

  lemma InvLinks(q: Queue, k: nat)
    requires Inv(q) && k == |q.requests|
    ensures WellLinked(q) && forall i :: 0 <= i < |q.rows| ==> q.rows[i].request != Some(k)
  {
  }

  lemma InStepIs(q: Queue, order: string, group: seq<Row>)
    requires InStep(q, order, group)
    ensures group == RowsOf(Selected(q.rows), order)
  {
  }

  lemma TurnKeepsOthers(q: Queue, order: string, group: seq<Row>, dryRun: bool, outcome: Outcome, other: string,
                        theirs: seq<Row>)
    requires Inv(q) && InStep(q, order, group) && other != order && InStep(q, other, theirs)
    ensures InStep(ConvertOrder(q, order, group, dryRun, outcome).0, other, theirs)
  {
    hide IdsOf, Linked;
    LinkingIsJust(q, order, group);
    OthersInStep(q.rows, Linked(q.rows, IdsOf(group), |q.requests|), order, |q.requests|, other);
  }

  /** During a run: the invariant, and the groups of the orders still to come as they were. */
  ghost predicate Midway(q: Queue, selected: seq<Row>, orders: seq<string>, n: nat) {
    Inv(q) && forall i :: n <= i < |orders| ==> InStep(q, orders[i], RowsOf(selected, orders[i]))
  }

  lemma {:induction false} RunMidway(q: Queue, selected: seq<Row>, orders: seq<string>, dryRun: bool,
                                     outcomes: Outcomes, n: nat)
    requires Inv(q) && selected == Selected(q.rows) && Distinct(orders) && n <= |orders|
    ensures Midway(AfterOrders(q, selected, orders[..n], dryRun, outcomes), selected, orders, n)
  {
    hide Inv, AfterOrders, ConvertOrder, RowsOf, Selected;
    if n == 0 {
      NoTurn(q, selected, orders, dryRun, outcomes);
    } else {
      RunMidway(q, selected, orders, dryRun, outcomes, n - 1);
      AfterTurn(q, selected, orders, dryRun, outcomes, n - 1);
      var before, o := AfterOrders(q, selected, orders[..n - 1], dryRun, outcomes), orders[n - 1];
      hide InStep;
      assert InStep(before, o, RowsOf(selected, o));
      TurnKeepsInv(before, o, RowsOf(selected, o), dryRun, outcomes(o));
      forall i | n <= i < |orders|
        ensures InStep(AfterOrders(q, selected, orders[..n], dryRun, outcomes), orders[i], RowsOf(selected, orders[i]))
      {
        assert InStep(before, orders[i], RowsOf(selected, orders[i]));
        TurnKeepsOthers(before, o, RowsOf(selected, o), dryRun, outcomes(o), orders[i], RowsOf(selected, orders[i]));
      }
    }
  }

  lemma RunKeepsInv(q: Queue, dryRun: bool, outcomes: Outcomes)
    requires Inv(q)
    ensures Inv(AfterRun(q, dryRun, outcomes))
  {
    hide Inv, Selected, Orders, AfterOrders;
    var selected := Selected(q.rows);
    var orders := Orders(selected);
    OrdersDistinct(selected);
    RunMidway(q, selected, orders, dryRun, outcomes, |orders|);
    assert orders[..|orders|] == orders;
  }

  /** The rows once request `k` has completed, or once it has been turned down. */
  predicate ClosedRows(rows: seq<Row>, after: seq<Row>, k: nat) {
    && |after| == |rows|
    && ((forall i :: 0 <= i < |rows| ==> after[i] == CompletedRow(rows[i], k))
        || (forall i :: 0 <= i < |rows| ==> after[i] == RejectedRow(rows[i], k)))
  }

  lemma ClosingKeepsBalance(q: Queue, after: seq<Row>, k: nat, m: nat)
    requires k < |q.requests| && m < |q.requests| && ClosedRows(q.rows, after, k) && BalancedAt(q, m)
    ensures BalancedAt(Queue(after, Closed(q.requests, k)), m)
  {
    if AnyLinked(after, m) {
      var i :| 0 <= i < |after| && after[i].request == Some(m);
      assert q.rows[i].request == Some(m);
      LinkedTotalSame(q.rows, after, m);
    }
  }

  lemma ClosingKeepsInv(q: Queue, after: seq<Row>, k: nat)
    requires Inv(q) && k < |q.requests| && ClosedRows(q.rows, after, k)
    ensures Inv(Queue(after, Closed(q.requests, k)))
  {
    hide BalancedAt;
    var next := Queue(after, Closed(q.requests, k));
    forall m | 0 <= m < |q.requests| ensures BalancedAt(next, m) { ClosingKeepsBalance(q, after, k, m); }
  }

  lemma OwingKeepsInv(q: Queue, r: Row)
    requires Inv(q) && r.id == |q.rows| && r.request.None? && r.rejected.None?
    ensures Inv(Queue(q.rows + [r], q.requests))
  {
    var next := Queue(q.rows + [r], q.requests);
    forall k | 0 <= k < |q.requests| ensures BalancedAt(next, k) {
      assert BalancedAt(q, k);
      assert (q.rows + [r])[..|q.rows|] == q.rows;
      if AnyLinked(next.rows, k) {
        var i :| 0 <= i < |next.rows| && next.rows[i].request == Some(k);
        assert q.rows[i].request == Some(k);
      }
    }
  }

  lemma SettlingKeepsInv(q: Queue, i: nat)
    requires Inv(q) && i < |q.rows| && q.rows[i].request.None?
    ensures Inv(Queue(q.rows[i := q.rows[i].(status := RowStatus.Completed)], q.requests))
  {
    var after := q.rows[i := q.rows[i].(status := RowStatus.Completed)];
    var next := Queue(after, q.requests);
    forall k | 0 <= k < |q.requests| ensures BalancedAt(next, k) {
      assert BalancedAt(q, k);
      LinkedTotalSame(q.rows, after, k);
      if AnyLinked(after, k) {
        var m :| 0 <= m < |after| && after[m].request == Some(k);
        assert q.rows[m].request == Some(k);
      }
    }
  }

  lemma StepKeepsInv(q: Queue, step: Step)
    requires Inv(q)
    ensures Inv(Apply(q, step))
  {
    hide Inv, AfterRun;
    match step
    case Run(dryRun, outcomes) => RunKeepsInv(q, dryRun, outcomes);
    case Complete(k) =>
      if k < |q.requests| && q.requests[k].open { ClosingKeepsInv(q, Apply(q, step).rows, k); }
    case Reject(k) =>
      if k < |q.requests| && q.requests[k].open { ClosingKeepsInv(q, Apply(q, step).rows, k); }
    case OpenElsewhere(order, amount) =>
      if !HasOpen(q.requests, order) { RequestAdded(q, Request(order, amount, true, [])); }
    case Owe(order, amount, status) => OwingKeepsInv(q, Row(|q.rows|, order, status, amount, None, None));
    case Settle(i) => if i < |q.rows| && Settleable(q, i) { SettlingKeepsInv(q, i); }
  }

  /** Over any history, links lost or not: no order has two open requests, every linked row has the one
      request of its own order, and a request with linked rows asks for exactly what they are owed. */
  lemma {:induction false} HistoryKeepsInv(q: Queue, steps: seq<Step>)
    requires Inv(q)
    ensures Inv(ApplyAll(q, steps))
  {
    hide Inv, Apply;
    if steps != [] {
      HistoryKeepsInv(q, steps[..|steps| - 1]);
      StepKeepsInv(ApplyAll(q, steps[..|steps| - 1]), steps[|steps| - 1]);
    }
  }

  // ---------- Is any row asked for twice? ----------

  /** A row that a request names is linked to it, or was turned down with it. */
  predicate ClaimStands(q: Queue, k: nat, id: nat) {
    id < |q.rows| && (q.rows[id].request == Some(k) || q.rows[id].rejected == Some(k))
  }

  predicate Claimed(q: Queue) {
    forall k, id :: 0 <= k < |q.requests| && id in q.requests[k].rows ==> ClaimStands(q, k, id)
  }

  /** No row is named by two requests: its money is asked for once. */
  predicate AskedOnce(requests: seq<Request>) {
    forall j, k, id :: 0 <= j < k < |requests| && id in requests[j].rows ==> id !in requests[k].rows
  }

  ghost predicate LinksKept(step: Step) {
    step.Run? ==> forall o :: step.outcomes(o) != LinkLost
  }

  lemma ClaimedOnce(q: Queue)
    requires WellLinked(q) && Claimed(q)
    ensures AskedOnce(q.requests)
  {
    forall j, k, id | 0 <= j < k < |q.requests| && id in q.requests[j].rows ensures id !in q.requests[k].rows {
      assert ClaimStands(q, j, id);
      assert id in q.requests[k].rows ==> ClaimStands(q, k, id);
    }
  }

  lemma GroupId(q: Queue, order: string, group: seq<Row>, id: nat)
    requires WellLinked(q) && InStep(q, order, group) && id in IdsOf(group)
    ensures id < |q.rows| && Selectable(q.rows[id]) && q.rows[id].order == order
  {
    var j :| 0 <= j < |IdsOf(group)| && IdsOf(group)[j] == id;
    RowsOfMember(Selected(q.rows), order, group[j]);
    SelectedMember(q.rows, group[j]);
    var i :| 0 <= i < |q.rows| && q.rows[i] == group[j];
  }

  lemma TurnKeepsClaims(q: Queue, order: string, group: seq<Row>, dryRun: bool, outcome: Outcome)
    requires WellLinked(q) && Claimed(q) && InStep(q, order, group)
    requires outcome == LinkLost ==> HasOpen(q.requests, order) || HasProcessing(q.rows, order)
    ensures Claimed(ConvertOrder(q, order, group, dryRun, outcome).0)
  {
    var after := ConvertOrder(q, order, group, dryRun, outcome).0;
    LinkingIsJust(q, order, group);
    hide Linked, InStep, IdsOf, HasOpen, HasProcessing, Total;
    if after != q {
      var n := |q.requests|;
      forall k, id | 0 <= k < |after.requests| && id in after.requests[k].rows ensures ClaimStands(after, k, id) {
        if k < n {
          assert after.requests[k] == q.requests[k];
          assert ClaimStands(q, k, id);
        } else {
          GroupId(q, order, group, id);
        }
      }
    }
  }

  /** What other orders' turns leave alone of an order: its requests, what blocks it and what it is owed. */
  ghost predicate Spared(q: Queue, after: Queue, o: string) {
    && q.requests <= after.requests
    && (HasOpen(after.requests, o) <==> HasOpen(q.requests, o))
    && (HasProcessing(after.rows, o) <==> HasProcessing(q.rows, o))
    && RowsOf(Selected(after.rows), o) == RowsOf(Selected(q.rows), o)
  }

  lemma TurnSpares(q: Queue, order: string, group: seq<Row>, dryRun: bool, outcome: Outcome, o: string)
    requires Inv(q) && InStep(q, order, group) && o != order
    ensures Spared(q, ConvertOrder(q, order, group, dryRun, outcome).0, o)
  {
    InStepIs(q, order, group);
    TurnKeepsOthers(q, order, group, dryRun, outcome, o, RowsOf(Selected(q.rows), o));
    hide Inv, InStep, Total, IdsOf, RowsOf, Selected, HasOpen, HasProcessing, Linked;
    OpenElsewhereOnly(q.requests, Request(order, Total(group), true, IdsOf(group)), o);
    LinkingProcesses(q.rows, IdsOf(group), |q.requests|, o);
  }

  lemma OpenElsewhereOnly(requests: seq<Request>, r: Request, o: string)
    requires r.order != o
    ensures HasOpen(requests + [r], o) <==> HasOpen(requests, o)
  {
    if HasOpen(requests, o) {
      var k :| 0 <= k < |requests| && requests[k].open && requests[k].order == o;
      assert (requests + [r])[k] == requests[k];
    }
  }

  lemma LinkingProcesses(rows: seq<Row>, ids: seq<nat>, k: nat, o: string)
    ensures HasProcessing(Linked(rows, ids, k), o) <==> HasProcessing(rows, o)
  {
    var after := Linked(rows, ids, k);
    forall i | 0 <= i < |rows| ensures after[i].order == rows[i].order && after[i].status == rows[i].status {
    }
    if i :| 0 <= i < |rows| && rows[i].order == o && rows[i].status == Processing {
      assert after[i].order == o && after[i].status == Processing;
    }
  }

  lemma SparedTwice(a: Queue, b: Queue, c: Queue, o: string)
    requires Spared(a, b, o) && Spared(b, c, o)
    ensures Spared(a, c, o)
  {
    hide HasOpen, HasProcessing, RowsOf, Selected;
  }

  lemma {:induction false} Elsewhere(q: Queue, selected: seq<Row>, orders: seq<string>, dryRun: bool,
                                     outcomes: Outcomes, a: nat, b: nat, o: string)
    requires Inv(q) && selected == Selected(q.rows) && Distinct(orders) && a <= b <= |orders|
    requires forall j :: a <= j < b ==> orders[j] != o
    ensures Spared(AfterOrders(q, selected, orders[..a], dryRun, outcomes),
                   AfterOrders(q, selected, orders[..b], dryRun, outcomes), o)
    decreases b
  {
    hide Inv, AfterOrders, ConvertOrder, RowsOf, Selected, InStep, HasOpen, HasProcessing;
    if a < b {
      Elsewhere(q, selected, orders, dryRun, outcomes, a, b - 1, o);
      RunMidway(q, selected, orders, dryRun, outcomes, b - 1);
      AfterTurn(q, selected, orders, dryRun, outcomes, b - 1);
      var before, order := AfterOrders(q, selected, orders[..b - 1], dryRun, outcomes), orders[b - 1];
      assert InStep(before, order, RowsOf(selected, order));
      TurnSpares(before, order, RowsOf(selected, order), dryRun, outcomes(order), o);
      hide Spared;
      SparedTwice(AfterOrders(q, selected, orders[..a], dryRun, outcomes), before,
                  AfterOrders(q, selected, orders[..b], dryRun, outcomes), o);
    }
  }

  lemma {:induction false} RunClaims(q: Queue, selected: seq<Row>, orders: seq<string>, dryRun: bool,
                                     outcomes: Outcomes, n: nat)
    requires Inv(q) && Claimed(q) && selected == Selected(q.rows) && Distinct(orders) && n <= |orders|
    requires forall i :: 0 <= i < n && outcomes(orders[i]) == LinkLost ==>
               HasOpen(q.requests, orders[i]) || HasProcessing(q.rows, orders[i])
    ensures Claimed(AfterOrders(q, selected, orders[..n], dryRun, outcomes))
  {
    hide Inv, Claimed, AfterOrders, ConvertOrder, RowsOf, Selected, InStep, HasOpen, HasProcessing;
    if n == 0 {
      NoTurn(q, selected, orders, dryRun, outcomes);
    } else {
      Elsewhere(q, selected, orders, dryRun, outcomes, 0, n - 1, orders[n - 1]);
      NoTurn(q, selected, orders, dryRun, outcomes);
      RunClaims(q, selected, orders, dryRun, outcomes, n - 1);
      RunMidway(q, selected, orders, dryRun, outcomes, n - 1);
      AfterTurn(q, selected, orders, dryRun, outcomes, n - 1);
      var before, o := AfterOrders(q, selected, orders[..n - 1], dryRun, outcomes), orders[n - 1];
      InvLinks(before, |before.requests|);
      assert InStep(before, o, RowsOf(selected, o));
      TurnKeepsClaims(before, o, RowsOf(selected, o), dryRun, outcomes(o));
    }
  }

  lemma StepKeepsClaims(q: Queue, step: Step)
    requires Inv(q) && Claimed(q) && LinksKept(step)
    ensures Claimed(Apply(q, step))
  {
    match step
    case Run(dryRun, outcomes) =>
      hide Inv, Claimed, AfterOrders;
      var selected := Selected(q.rows);
      var orders := Orders(selected);
      OrdersDistinct(selected);
      assert forall o :: outcomes(o) != LinkLost;
      RunClaims(q, selected, orders, dryRun, outcomes, |orders|);
      assert orders[..|orders|] == orders;
    case _ =>
      var after := Apply(q, step);
      hide AfterRun, Balanced, OneOpen, HasOpen;
      if !step.Run? {
        forall k, id | 0 <= k < |after.requests| && id in after.requests[k].rows ensures ClaimStands(after, k, id) {
          assert k < |q.requests| && id in q.requests[k].rows;
          assert ClaimStands(q, k, id);
        }
      }
  }

  /** As long as every link is written, no row's money is asked for in two requests, over any history. */
  lemma {:induction false} AskedOnceWhileLinksAreKept(q: Queue, steps: seq<Step>)
    requires Inv(q) && Claimed(q) && forall i :: 0 <= i < |steps| ==> LinksKept(steps[i])
    ensures Claimed(ApplyAll(q, steps)) && AskedOnce(ApplyAll(q, steps).requests)
  {
    hide Claimed, Apply, LinksKept, AskedOnce, Balanced, OneOpen;
    if steps != [] {
      var init := steps[..|steps| - 1];
      AskedOnceWhileLinksAreKept(q, init);
      HistoryKeepsInv(q, init);
      StepKeepsClaims(ApplyAll(q, init), steps[|steps| - 1]);
    }
    HistoryKeepsInv(q, steps);
    ClaimedOnce(ApplyAll(q, steps));
  }

  /** Nothing is in the way of a request for what the order is owed. */
  ghost predicate Eligible(q: Queue, o: string) {
    RowsOf(Selected(q.rows), o) != [] && !HasOpen(q.requests, o) && !HasProcessing(q.rows, o)
  }

  lemma OwedIsListed(rows: seq<Row>, o: string)
    requires RowsOf(rows, o) != []
    ensures o in Orders(rows)
  {
    var x := RowsOf(rows, o)[0];
    RowsOfMember(rows, o, x);
    var i :| 0 <= i < |rows| && rows[i] == x;
    OrdersCover(rows, i);
  }

  /** A run asks for what an eligible order is owed unless it is refused, and leaves it owed if the link is lost. */
  lemma RunAsks(q: Queue, outcomes: Outcomes, o: string) returns (k: nat)
    requires Inv(q) && Eligible(q, o) && outcomes(o) != Refused
    ensures var after, group := AfterRun(q, false, outcomes), RowsOf(Selected(q.rows), o);
            && q.requests <= after.requests && |q.requests| <= k < |after.requests|
            && after.requests[k] == Request(o, Total(group), true, IdsOf(group))
            && (outcomes(o) == LinkLost ==>
                  RowsOf(Selected(after.rows), o) == group && !HasProcessing(after.rows, o))
  {
    hide Inv, AfterOrders, RowsOf, Selected, Orders, HasOpen, HasProcessing, Total, IdsOf, Linked;
    var selected := Selected(q.rows);
    var orders, group := Orders(selected), RowsOf(selected, o);
    OrdersDistinct(selected);
    OwedIsListed(selected, o);
    var i :| 0 <= i < |orders| && orders[i] == o;
    NoTurn(q, selected, orders, false, outcomes);
    Elsewhere(q, selected, orders, false, outcomes, 0, i, o);
    AfterTurn(q, selected, orders, false, outcomes, i);
    Elsewhere(q, selected, orders, false, outcomes, i + 1, |orders|, o);
    assert orders[..|orders|] == orders;
    var before := AfterOrders(q, selected, orders[..i], false, outcomes);
    var turned := AfterOrders(q, selected, orders[..i + 1], false, outcomes);
    k := |before.requests|;
    assert turned.requests == before.requests + [Request(o, Total(group), true, IdsOf(group))];
  }

  lemma {:induction false} SelectedSame(rows: seq<Row>, after: seq<Row>)
    requires |rows| == |after|
    requires forall i :: 0 <= i < |rows| ==> after[i] == rows[i] || (!Selectable(rows[i]) && !Selectable(after[i]))
    ensures Selected(rows) == Selected(after)
  {
    if rows != [] { SelectedSame(rows[..|rows| - 1], after[..|rows| - 1]); }
  }

  /** Once an order's one open request completes without having been linked, the order is eligible again. */
  lemma EligibleAgain(q: Queue, k: nat, o: string)
    requires Inv(q) && k < |q.requests| && q.requests[k].open && q.requests[k].order == o
    requires RowsOf(Selected(q.rows), o) != [] && !HasProcessing(q.rows, o)
    ensures var later := Apply(q, Complete(k));
            Eligible(later, o) && RowsOf(Selected(later.rows), o) == RowsOf(Selected(q.rows), o)
  {
    var later := Apply(q, Complete(k));
    SelectedSame(q.rows, later.rows);
    forall i | 0 <= i < |later.rows| && later.rows[i].order == o ensures later.rows[i].status != Processing {
      assert q.rows[i].status != Processing;
    }
    forall m | 0 <= m < |later.requests| && m != k && q.requests[m].open ensures later.requests[m].order != o {
      assert q.requests[m].order != q.requests[k].order;
    }
  }

  ghost predicate AllLinksKept(steps: seq<Step>) {
    forall i :: 0 <= i < |steps| ==> LinksKept(steps[i])
  }

  /** Whatever happens next, no row's money is asked for in two requests while the links are written. */
  ghost predicate StaysAskedOnce(q: Queue) {
    forall steps: seq<Step> :: AllLinksKept(steps) ==> AskedOnce(ApplyAll(q, steps).requests)
  }

  /** A lost link of an eligible order, that request's completion and a clean run: the same rows are asked for again. */
  lemma LostLinkAsksAgain(q: Queue, outcomes: Outcomes, o: string)
    requires Inv(q) && Eligible(q, o) && outcomes(o) == LinkLost
    ensures !StaysAskedOnce(Apply(q, Run(false, outcomes)))
  {
    hide Inv, AfterRun, Eligible, RowsOf, Selected, HasProcessing, Total, IdsOf;
    var after, group := AfterRun(q, false, outcomes), RowsOf(Selected(q.rows), o);
    assert group != [] by { EligibleOwes(q, o); }
    var k := RunAsks(q, outcomes, o);
    RunKeepsInv(q, false, outcomes);
    EligibleAgain(after, k, o);
    StepKeepsInv(after, Complete(k));
    var later, clean: Outcomes := Apply(after, Complete(k)), _ => Done;
    var m := RunAsks(later, clean, o);
    var steps := [Complete(k), Run(false, clean)];
    assert steps[..1] == [Complete(k)] && steps[..1][..0] == [];
    assert ApplyAll(after, steps[..1]) == later;
    assert ApplyAll(after, steps) == AfterRun(later, false, clean);
    var requests := AfterRun(later, false, clean).requests;
    assert requests[k].rows == IdsOf(group) == requests[m].rows && k < m;
    assert IdsOf(group)[0] in requests[k].rows;
    assert AllLinksKept(steps);
  }

  lemma EligibleOwes(q: Queue, o: string)
    requires Eligible(q, o)
    ensures RowsOf(Selected(q.rows), o) != []
  {
  }

  /** A lost link does no harm where its order was skipped. */
  lemma RunKeepsClaims(q: Queue, outcomes: Outcomes)
    requires Inv(q) && Claimed(q) && forall o :: Eligible(q, o) ==> outcomes(o) != LinkLost
    ensures Claimed(AfterRun(q, false, outcomes))
  {
    hide Inv, Claimed, AfterOrders;
    var selected := Selected(q.rows);
    var orders := Orders(selected);
    OrdersDistinct(selected);
    forall i | 0 <= i < |orders| && outcomes(orders[i]) == LinkLost
      ensures HasOpen(q.requests, orders[i]) || HasProcessing(q.rows, orders[i])
    {
      ListedIsOwed(selected, i);
      assert !Eligible(q, orders[i]);
    }
    RunClaims(q, selected, orders, false, outcomes, |orders|);
    assert orders[..|orders|] == orders;
  }

  lemma {:induction false} ListedIsOwed(rows: seq<Row>, i: nat)
    requires i < |Orders(rows)|
    ensures RowsOf(rows, Orders(rows)[i]) != []
  {
    if i < |Orders(rows[..|rows| - 1])| { ListedIsOwed(rows[..|rows| - 1], i); }
  }

  /** After a run, every future whose links are all written asks for each row once, exactly when the run lost
      the link of no order it could raise. */
  lemma AskedOnceExactly(q: Queue, outcomes: Outcomes)
    requires Inv(q) && Claimed(q)
    ensures StaysAskedOnce(Apply(q, Run(false, outcomes))) <==> forall o :: Eligible(q, o) ==> outcomes(o) != LinkLost
  {
    hide Inv, Claimed, Eligible, AfterRun, AskedOnce, LinksKept;
    var after := Apply(q, Run(false, outcomes));
    if o :| Eligible(q, o) && outcomes(o) == LinkLost {
      LostLinkAsksAgain(q, outcomes, o);
    } else {
      RunKeepsClaims(q, outcomes);
      RunKeepsInv(q, false, outcomes);
      forall steps: seq<Step> | AllLinksKept(steps) ensures AskedOnce(ApplyAll(after, steps).requests) {
        AskedOnceWhileLinksAreKept(after, steps);
      }
    }
  }

  /** A link once written is not overwritten by any run. */
  lemma {:induction false} RunsKeepLinks(q: Queue, selected: seq<Row>, orders: seq<string>, dryRun: bool,
                                         outcomes: Outcomes, i: nat)
    requires i < |q.rows| && q.rows[i].request.Some?
    ensures var after := AfterOrders(q, selected, orders, dryRun, outcomes);
            |after.rows| == |q.rows| && after.rows[i] == q.rows[i]
    decreases |orders|
  {
    if orders != [] {
      hide HasOpen, HasProcessing, Total, IdsOf, RowsOf;
      RunsKeepLinks(q, selected, orders[..|orders| - 1], dryRun, outcomes, i);
    }
  }
}
