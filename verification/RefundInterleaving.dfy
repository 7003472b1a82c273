/** The conversion's run order by order, with everything else that happens to the two collections in between. */
module RefundInterleaving {
  import opened Options
  import opened RefundConversion

  /** An order's rows as the run selected them. */
  datatype Batch = Batch(order: string, group: seq<Row>)

  /** The collections, and the batches whose turn is still to come. */
  datatype Live = Live(q: Queue, pending: seq<Batch>)

  type OutsideStep = s: Step | !s.Run? witness Complete(0)

  /** A run selects its rows, takes its next order, or something else happens. A run may be cut off: the next
      one begins afresh. */
  datatype Event = Begin | Turn(dryRun: bool, outcome: Outcome) | Outside(step: OutsideStep)

  function Batches(selected: seq<Row>, orders: seq<string>): (r: seq<Batch>)
    ensures |r| == |orders|
    ensures forall i :: 0 <= i < |r| ==> r[i] == Batch(orders[i], RowsOf(selected, orders[i]))
  {
    seq(|orders|, i requires 0 <= i < |orders| => Batch(orders[i], RowsOf(selected, orders[i])))
  }

  function Next(s: Live, e: Event): Live {
    match e
    case Begin => Live(s.q, Batches(Selected(s.q.rows), Orders(Selected(s.q.rows))))
    case Turn(dryRun, outcome) =>
      if s.pending == [] then s
      else
        var b := s.pending[0];
        Live(ConvertOrder(s.q, b.order, b.group, dryRun, outcome).0, s.pending[1..])
    case Outside(step) => Live(Apply(s.q, step), s.pending)
  }

  function After(s: Live, events: seq<Event>): Live {
    if events == [] then s else Next(After(s, events[..|events| - 1]), events[|events| - 1])
  }

  // ---------- A run is its turns ----------

  function Turns(orders: seq<string>, dryRun: bool, outcomes: Outcomes): (r: seq<Event>)
    ensures |r| == |orders|
  {
    seq(|orders|, i requires 0 <= i < |orders| => Turn(dryRun, outcomes(orders[i])))
  }

  lemma {:induction false} TurnsRun(q: Queue, selected: seq<Row>, orders: seq<string>, dryRun: bool,
                                    outcomes: Outcomes, n: nat)
    requires n <= |orders|
    ensures After(Live(q, Batches(selected, orders)), Turns(orders, dryRun, outcomes)[..n])
            == Live(AfterOrders(q, selected, orders[..n], dryRun, outcomes), Batches(selected, orders)[n..])
  {
    hide AfterOrders, ConvertOrder, RowsOf;
    var s, turns := Live(q, Batches(selected, orders)), Turns(orders, dryRun, outcomes);
    if n == 0 {
      NoTurn(q, selected, orders, dryRun, outcomes);
    } else {
      TurnsRun(q, selected, orders, dryRun, outcomes, n - 1);
      AfterTurn(q, selected, orders, dryRun, outcomes, n - 1);
      assert turns[..n][..n - 1] == turns[..n - 1];
      assert s.pending[n - 1..][1..] == s.pending[n..];
    }
  }

  lemma {:induction false} AfterConcat(s: Live, a: seq<Event>, b: seq<Event>)
    ensures After(s, a + b) == After(After(s, a), b)
  {
    hide Next;
    if b == [] {
      assert a + b == a;
    } else {
      assert (a + b)[..|a + b| - 1] == a + b[..|b| - 1];
      AfterConcat(s, a, b[..|b| - 1]);
    }
  }

  /** With nothing in between, beginning and taking every order's turn is the run. */
  lemma RunIsItsTurns(s: Live, dryRun: bool, outcomes: Outcomes)
    ensures After(s, [Begin] + Turns(Orders(Selected(s.q.rows)), dryRun, outcomes))
            == Live(AfterRun(s.q, dryRun, outcomes), [])
  {
    hide AfterOrders, Orders, Selected;
    var selected := Selected(s.q.rows);
    var orders := Orders(selected);
    var turns := Turns(orders, dryRun, outcomes);
    AfterConcat(s, [Begin], turns);
    assert [Begin][..0] == [];
    assert After(s, [Begin]) == Live(s.q, Batches(selected, orders));
    TurnsRun(s.q, selected, orders, dryRun, outcomes, |orders|);
    assert turns[..|orders|] == turns && orders[..|orders|] == orders;
  }

  // ---------- What is selected stands ----------

  /** The row is as it was selected, or was settled since. */
  predicate StandsAt(q: Queue, order: string, r: Row) {
    && r.id < |q.rows| && Selectable(r) && r.order == order
    && (q.rows[r.id] == r || q.rows[r.id] == r.(status := RowStatus.Completed))
  }

  predicate Ascends(group: seq<Row>) {
    forall i, j :: 0 <= i < j < |group| ==> group[i].id < group[j].id
  }

  predicate Stands(q: Queue, b: Batch) {
    Ascends(b.group) && forall j :: 0 <= j < |b.group| ==> StandsAt(q, b.order, b.group[j])
  }

  predicate Apart(pending: seq<Batch>) {
    forall i, j :: 0 <= i < j < |pending| ==> pending[i].order != pending[j].order
  }

  /** Links lead to requests of their own order, no order has two open requests, and the batches stand. */
  predicate Sound(s: Live) {
    && WellLinked(s.q) && OneOpen(s.q.requests) && Apart(s.pending)
    && forall i :: 0 <= i < |s.pending| ==> Stands(s.q, s.pending[i])
  }

  predicate Numbered(rows: seq<Row>) {
    forall i :: 0 <= i < |rows| ==> rows[i].id == i
  }

  lemma {:induction false} GroupAscends(rows: seq<Row>, order: string)
    requires Numbered(rows)
    ensures var group := RowsOf(Selected(rows), order);
            Ascends(group) && forall j :: 0 <= j < |group| ==> group[j].id < |rows|
  {
    if rows != [] {
      GroupAscends(rows[..|rows| - 1], order);
      hide Selected, RowsOf;
      GroupSnoc(rows, order);
      var before := RowsOf(Selected(rows[..|rows| - 1]), order);
      assert before + [] == before;
    } else {
      assert RowsOf(Selected(rows), order) == [];
    }
  }

  lemma SelectedStands(q: Queue, order: string)
    requires WellLinked(q)
    ensures Stands(q, Batch(order, RowsOf(Selected(q.rows), order)))
  {
    var group := RowsOf(Selected(q.rows), order);
    GroupAscends(q.rows, order);
    hide Selected, RowsOf;
    forall j | 0 <= j < |group| ensures StandsAt(q, order, group[j]) {
      RowsOfMember(Selected(q.rows), order, group[j]);
      SelectedMember(q.rows, group[j]);
      var i :| 0 <= i < |q.rows| && q.rows[i] == group[j];
    }
  }

  lemma BeginKeepsSound(s: Live)
    requires Sound(s)
    ensures Sound(Next(s, Begin))
  {
    hide Selected, Orders, RowsOf, Stands;
    var selected := Selected(s.q.rows);
    OrdersDistinct(selected);
    forall i | 0 <= i < |Orders(selected)| ensures Stands(s.q, Next(s, Begin).pending[i]) {
      SelectedStands(s.q, Orders(selected)[i]);
    }
  }

  /** A row with no request and none turned down is left alone, or settled. */
  lemma OutsideLeaves(q: Queue, step: OutsideStep, i: nat)
    requires i < |q.rows| && q.rows[i].request.None?
    ensures var after := Apply(q, step);
            i < |after.rows|
            && (after.rows[i] == q.rows[i]
                || (q.rows[i].status == ManualRequired && after.rows[i] == q.rows[i].(status := RowStatus.Completed)))
  {
    hide AfterRun, HasOpen;
  }

  lemma OutsideStands(q: Queue, step: OutsideStep, b: Batch)
    requires Stands(q, b)
    ensures Stands(Apply(q, step), b)
  {
    hide Apply;
    forall j | 0 <= j < |b.group| ensures StandsAt(Apply(q, step), b.order, b.group[j]) {
      assert StandsAt(q, b.order, b.group[j]);
      OutsideLeaves(q, step, b.group[j].id);
    }
  }

  lemma OutsideKeepsLinks(q: Queue, step: OutsideStep)
    requires WellLinked(q) && OneOpen(q.requests)
    ensures WellLinked(Apply(q, step)) && OneOpen(Apply(q, step).requests)
  {
    hide AfterRun;
  }

  lemma OutsideKeepsSound(s: Live, step: OutsideStep)
    requires Sound(s)
    ensures Sound(Next(s, Outside(step)))
  {
    hide Apply, Stands, WellLinked, OneOpen;
    OutsideKeepsLinks(s.q, step);
    forall i | 0 <= i < |s.pending| ensures Stands(Apply(s.q, step), s.pending[i]) {
      OutsideStands(s.q, step, s.pending[i]);
    }
  }

  /** The turn creates its request and links it. */
  predicate Links(q: Queue, order: string, dryRun: bool, outcome: Outcome) {
    !HasOpen(q.requests, order) && !HasProcessing(q.rows, order) && !dryRun && outcome.Done?
  }

  /** A row of the group is linked unless it was settled, and no other row changes. */
  lemma LinkedAt(q: Queue, b: Batch, k: nat, i: nat)
    requires Numbered(q.rows) && Stands(q, b) && i < |q.rows|
    ensures var after := Linked(q.rows, IdsOf(b.group), k);
            after[i] == if q.rows[i] in b.group then q.rows[i].(request := Some(k)) else q.rows[i]
    ensures q.rows[i] in b.group ==> Selectable(q.rows[i]) && q.rows[i].order == b.order
  {
    var r, ids := q.rows[i], IdsOf(b.group);
    if r in b.group {
      var j :| 0 <= j < |b.group| && b.group[j] == r;
      assert ids[j] == i && StandsAt(q, b.order, b.group[j]);
    }
    if r.id in ids {
      var j :| 0 <= j < |ids| && ids[j] == r.id;
      assert StandsAt(q, b.order, b.group[j]) && b.group[j].id == i;
    }
  }

  lemma LinkingKeepsLinks(q: Queue, b: Batch, r: Request)
    requires WellLinked(q) && Stands(q, b) && r.order == b.order
    ensures WellLinked(Queue(Linked(q.rows, IdsOf(b.group), |q.requests|), q.requests + [r]))
  {
    hide Stands;
    var after := Linked(q.rows, IdsOf(b.group), |q.requests|);
    hide Linked, IdsOf;
    forall i | 0 <= i < |q.rows|
      ensures after[i] == q.rows[i]
              || (after[i] == q.rows[i].(request := Some(|q.requests|)) && Selectable(q.rows[i])
                  && q.rows[i].order == b.order)
    {
      LinkedAt(q, b, |q.requests|, i);
    }
  }

  lemma AddingKeepsLinks(q: Queue, r: Request)
    requires WellLinked(q) && OneOpen(q.requests) && (r.open ==> !HasOpen(q.requests, r.order))
    ensures WellLinked(Queue(q.rows, q.requests + [r])) && OneOpen(q.requests + [r])
  {
  }

  lemma TurnKeepsLinks(q: Queue, b: Batch, dryRun: bool, outcome: Outcome)
    requires WellLinked(q) && OneOpen(q.requests) && Stands(q, b)
    ensures var after := ConvertOrder(q, b.order, b.group, dryRun, outcome).0;
            WellLinked(after) && OneOpen(after.requests)
  {
    hide WellLinked, OneOpen, Stands, HasOpen, HasProcessing, Linked, IdsOf, Total;
    var r := Request(b.order, Total(b.group), true, IdsOf(b.group));
    if !HasOpen(q.requests, b.order) { AddingKeepsLinks(q, r); }
    LinkingKeepsLinks(q, b, r);
  }

  /** Another order's batch stands through a turn. */
  lemma TurnStands(q: Queue, b: Batch, dryRun: bool, outcome: Outcome, other: Batch)
    requires Numbered(q.rows) && Stands(q, b) && Stands(q, other) && other.order != b.order
    ensures Stands(ConvertOrder(q, b.order, b.group, dryRun, outcome).0, other)
  {
    var after := ConvertOrder(q, b.order, b.group, dryRun, outcome).0;
    hide Linked, IdsOf, Total, HasOpen, HasProcessing;
    forall j | 0 <= j < |other.group| ensures StandsAt(after, other.order, other.group[j]) {
      var i := other.group[j].id;
      assert StandsAt(q, other.order, other.group[j]);
      LinkedAt(q, b, |q.requests|, i);
    }
  }

  lemma TurnKeepsSound(s: Live, dryRun: bool, outcome: Outcome)
    requires Sound(s)
    ensures Sound(Next(s, Turn(dryRun, outcome)))
  {
    hide Stands, ConvertOrder, OneOpen;
    if s.pending != [] {
      var b, next := s.pending[0], Next(s, Turn(dryRun, outcome));
      TurnKeepsLinks(s.q, b, dryRun, outcome);
      forall i | 0 <= i < |next.pending| ensures Stands(next.q, next.pending[i]) {
        assert next.pending[i] == s.pending[i + 1];
        TurnStands(s.q, b, dryRun, outcome, s.pending[i + 1]);
      }
    }
  }

  lemma EventKeepsSound(s: Live, e: Event)
    requires Sound(s)
    ensures Sound(Next(s, e))
  {
    match e
    case Begin => BeginKeepsSound(s);
    case Turn(dryRun, outcome) => TurnKeepsSound(s, dryRun, outcome);
    case Outside(step) => OutsideKeepsSound(s, step);
  }

  /** Whatever happens between the turns: no order has two open requests, and a row is linked to at most one,
      of its own order. */
  lemma {:induction false} InterleavedKeepsSound(s: Live, events: seq<Event>)
    requires Sound(s)
    ensures Sound(After(s, events))
  {
    hide Sound, Next;
    if events != [] {
      InterleavedKeepsSound(s, events[..|events| - 1]);
      EventKeepsSound(After(s, events[..|events| - 1]), events[|events| - 1]);
    }
  }

  // ---------- Does a request ask for what its rows are owed? ----------

  /** The money of the group's rows that were settled since. */
  function SettledMoney(rows: seq<Row>, group: seq<Row>): int {
    if group == [] then 0
    else
      var r := group[|group| - 1];
      SettledMoney(rows, group[..|group| - 1]) + if r in rows then 0 else r.amount
  }

  predicate AnyOpen(rows: seq<Row>, group: seq<Row>) {
    exists j :: 0 <= j < |group| && group[j] in rows
  }

  /** The turn asks for money that was settled by hand since the rows were selected, beside money still owed. */
  predicate Overasks(s: Live, e: Event) {
    && e.Turn? && s.pending != []
    && var b := s.pending[0];
       Links(s.q, b.order, e.dryRun, e.outcome) && AnyOpen(s.q.rows, b.group) && SettledMoney(s.q.rows, b.group) != 0
  }

  /** The first `m` rows of the group are those among the first `n` rows. */
  predicate Cut(group: seq<Row>, n: nat, m: nat)
    requires m <= |group|
  {
    (forall j :: 0 <= j < m ==> group[j].id < n) && forall j :: m <= j < |group| ==> group[j].id >= n
  }

  lemma OpenRow(q: Queue, b: Batch, j: nat)
    requires Numbered(q.rows) && Stands(q, b) && j < |b.group|
    ensures b.group[j].id < |q.rows| && (q.rows[b.group[j].id] in b.group <==> b.group[j] in q.rows)
    ensures b.group[j] in q.rows <==> q.rows[b.group[j].id] == b.group[j]
  {
    var r := b.group[j];
    assert StandsAt(q, b.order, r);
    if r in q.rows {
      var i :| 0 <= i < |q.rows| && q.rows[i] == r;
    }
    if q.rows[r.id] in b.group {
      var m :| 0 <= m < |b.group| && b.group[m] == q.rows[r.id];
      assert StandsAt(q, b.order, b.group[m]);
    }
  }

  /** What ends up linked is the group less what was settled. */
  lemma {:induction false} LinkedMoney(q: Queue, b: Batch, k: nat, n: nat, m: nat)
    requires Numbered(q.rows) && Stands(q, b) && n <= |q.rows| && m <= |b.group| && Cut(b.group, n, m)
    requires forall i :: 0 <= i < |q.rows| ==> q.rows[i].request != Some(k)
    ensures LinkedTotal(Linked(q.rows, IdsOf(b.group), k)[..n], k)
            == Total(b.group[..m]) - SettledMoney(q.rows, b.group[..m])
  {
    hide Linked, IdsOf, Stands;
    var after := Linked(q.rows, IdsOf(b.group), k);
    if n == 0 {
      NothingBelow(b.group, m);
    } else {
      LinkedAt(q, b, k, n - 1);
      assert after[..n][..n - 1] == after[..n - 1];
      if m > 0 && b.group[m - 1].id == n - 1 {
        CutBelow(q, b, n, m);
        LinkedMoney(q, b, k, n - 1, m - 1);
        OpenRow(q, b, m - 1);
        assert b.group[..m][..m - 1] == b.group[..m - 1];
      } else {
        NoRowAt(q, b, n, m);
        LinkedMoney(q, b, k, n - 1, m);
      }
    }
  }

  lemma NothingBelow(group: seq<Row>, m: nat)
    requires m <= |group| && Cut(group, 0, m)
    ensures group[..m] == []
  {
    assert m > 0 ==> group[0].id < 0;
  }

  lemma CutBelow(q: Queue, b: Batch, n: nat, m: nat)
    requires Stands(q, b) && 0 < n && 0 < m <= |b.group| && Cut(b.group, n, m) && b.group[m - 1].id == n - 1
    ensures Cut(b.group, n - 1, m - 1)
  {
  }

  lemma NoRowAt(q: Queue, b: Batch, n: nat, m: nat)
    requires Numbered(q.rows) && Stands(q, b) && 0 < n <= |q.rows| && m <= |b.group| && Cut(b.group, n, m)
    requires m > 0 ==> b.group[m - 1].id != n - 1
    ensures Cut(b.group, n - 1, m) && q.rows[n - 1] !in b.group
  {
    forall j | 0 <= j < m ensures b.group[j].id < n - 1 {
      if j < m - 1 { assert b.group[j].id < b.group[m - 1].id; }
    }
    assert forall j :: 0 <= j < |b.group| ==> b.group[j].id != n - 1;
  }

  lemma AllLinkedMoney(q: Queue, b: Batch, k: nat)
    requires Numbered(q.rows) && Stands(q, b)
    requires forall i :: 0 <= i < |q.rows| ==> q.rows[i].request != Some(k)
    ensures LinkedTotal(Linked(q.rows, IdsOf(b.group), k), k) == Total(b.group) - SettledMoney(q.rows, b.group)
    ensures AnyLinked(Linked(q.rows, IdsOf(b.group), k), k) <==> AnyOpen(q.rows, b.group)
  {
    hide Linked, IdsOf;
    var n, m, after := |q.rows|, |b.group|, Linked(q.rows, IdsOf(b.group), k);
    forall j | 0 <= j < m ensures b.group[j].id < n { assert StandsAt(q, b.order, b.group[j]); }
    LinkedMoney(q, b, k, n, m);
    assert after[..n] == after && b.group[..m] == b.group;
    hide Stands;
    if AnyLinked(after, k) {
      var i :| 0 <= i < |after| && after[i].request == Some(k);
      LinkedAt(q, b, k, i);
      var j :| 0 <= j < m && b.group[j] == q.rows[i];
      assert b.group[j] in q.rows;
    }
    if AnyOpen(q.rows, b.group) {
      var j :| 0 <= j < m && b.group[j] in q.rows;
      OpenRow(q, b, j);
      LinkedAt(q, b, k, b.group[j].id);
    }
  }

  lemma OthersBalanced(q: Queue, b: Batch, r: Request, m: nat)
    requires Numbered(q.rows) && Stands(q, b) && m < |q.requests|
    ensures var next := Queue(Linked(q.rows, IdsOf(b.group), |q.requests|), q.requests + [r]);
            BalancedAt(next, m) <==> BalancedAt(q, m)
  {
    var k := |q.requests|;
    var after := Linked(q.rows, IdsOf(b.group), k);
    hide Linked, IdsOf, Stands;
    forall i | 0 <= i < |q.rows|
      ensures after[i].amount == q.rows[i].amount && (after[i].request == Some(m) <==> q.rows[i].request == Some(m))
    {
      LinkedAt(q, b, k, i);
    }
    LinkedTotalSame(q.rows, after, m);
    if AnyLinked(q.rows, m) {
      var i :| 0 <= i < |q.rows| && q.rows[i].request == Some(m);
      assert after[i].request == Some(m);
    }
  }

  lemma LinkingBalances(q: Queue, b: Batch)
    requires WellLinked(q) && Balanced(q) && Stands(q, b)
    ensures var r := Request(b.order, Total(b.group), true, IdsOf(b.group));
            Balanced(Queue(Linked(q.rows, IdsOf(b.group), |q.requests|), q.requests + [r]))
            <==> !AnyOpen(q.rows, b.group) || SettledMoney(q.rows, b.group) == 0
  {
    var k, r := |q.requests|, Request(b.order, Total(b.group), true, IdsOf(b.group));
    var next := Queue(Linked(q.rows, IdsOf(b.group), k), q.requests + [r]);
    AllLinkedMoney(q, b, k);
    hide Linked, IdsOf, Stands, AnyOpen, SettledMoney, LinkedTotal, AnyLinked, Total;
    assert BalancedAt(next, k) <==> !AnyOpen(q.rows, b.group) || SettledMoney(q.rows, b.group) == 0;
    hide BalancedAt;
    forall m | 0 <= m < k ensures BalancedAt(next, m) {
      OthersBalanced(q, b, r, m);
      assert BalancedAt(q, m);
    }
  }

  lemma AddingBalances(q: Queue, r: Request)
    requires WellLinked(q) && Balanced(q)
    ensures Balanced(Queue(q.rows, q.requests + [r]))
  {
    var next := Queue(q.rows, q.requests + [r]);
    forall m | 0 <= m < |next.requests| ensures BalancedAt(next, m) {
      if m < |q.requests| { assert BalancedAt(q, m); }
    }
  }

  lemma TurnBalancesExactly(s: Live, dryRun: bool, outcome: Outcome)
    requires Sound(s) && Balanced(s.q)
    ensures Balanced(Next(s, Turn(dryRun, outcome)).q) <==> !Overasks(s, Turn(dryRun, outcome))
  {
    hide Balanced, Stands, AnyOpen, SettledMoney, Linked, IdsOf, Total, HasOpen, HasProcessing, WellLinked;
    if s.pending != [] {
      var q, b := s.q, s.pending[0];
      AddingBalances(q, Request(b.order, Total(b.group), true, IdsOf(b.group)));
      LinkingBalances(q, b);
    }
  }

  /** One event keeps every request with linked rows asking for exactly what they are owed, unless it is a turn
      that overasks; then it does not. */
  lemma EventBalancesExactly(s: Live, e: Event)
    requires Sound(s) && Balanced(s.q)
    ensures Balanced(Next(s, e).q) <==> !Overasks(s, e)
  {
    match e
    case Begin =>
    case Turn(dryRun, outcome) => TurnBalancesExactly(s, dryRun, outcome);
    case Outside(step) =>
      hide WellLinked, OneOpen, Balanced, Apply, Apart, Stands;
      assert Inv(s.q);
      StepKeepsInv(s.q, step);
  }

  ghost predicate NeverOverasks(s: Live, events: seq<Event>) {
    forall i :: 0 <= i < |events| ==> !Overasks(After(s, events[..i]), events[i])
  }

  /** Over any interleaving in which no turn overasks, every request with linked rows asks for what they are owed. */
  lemma {:induction false} InterleavedKeepsBalance(s: Live, events: seq<Event>)
    requires Sound(s) && Balanced(s.q) && NeverOverasks(s, events)
    ensures Sound(After(s, events)) && Balanced(After(s, events).q)
  {
    hide Sound, Balanced, Next, Overasks;
    if events != [] {
      var n := |events| - 1;
      var init := events[..n];
      assert events[..n] == init;
      forall i | 0 <= i < n ensures !Overasks(After(s, init[..i]), init[i]) {
        assert init[..i] == events[..i] && init[i] == events[i];
      }
      InterleavedKeepsBalance(s, init);
      EventKeepsSound(After(s, init), events[n]);
      EventBalancesExactly(After(s, init), events[n]);
    }
  }

  // ---------- Nothing settled in between ----------

  /** Every row still to come is as it was selected. */
  predicate Unsettled(s: Live) {
    forall i, j :: 0 <= i < |s.pending| && 0 <= j < |s.pending[i].group| ==> s.pending[i].group[j] in s.q.rows
  }

  lemma {:induction false} NothingSettled(rows: seq<Row>, group: seq<Row>)
    requires forall j :: 0 <= j < |group| ==> group[j] in rows
    ensures SettledMoney(rows, group) == 0
  {
    if group != [] { NothingSettled(rows, group[..|group| - 1]); }
  }

  lemma BeginUnsettled(s: Live)
    ensures Unsettled(Next(s, Begin))
  {
    var next := Next(s, Begin);
    hide Orders, RowsOf, Selected;
    forall i, j | 0 <= i < |next.pending| && 0 <= j < |next.pending[i].group|
      ensures next.pending[i].group[j] in s.q.rows
    {
      RowsOfMember(Selected(s.q.rows), next.pending[i].order, next.pending[i].group[j]);
      SelectedMember(s.q.rows, next.pending[i].group[j]);
    }
  }

  lemma OutsideUnsettled(q: Queue, step: OutsideStep, r: Row)
    requires r in q.rows && r.request.None? && !step.Settle?
    ensures r in Apply(q, step).rows
  {
    hide AfterRun, HasOpen;
    var i :| 0 <= i < |q.rows| && q.rows[i] == r;
    assert Apply(q, step).rows[i] == r;
  }

  lemma TurnUnsettled(q: Queue, b: Batch, dryRun: bool, outcome: Outcome, other: Batch, j: nat)
    requires Numbered(q.rows) && Stands(q, b) && j < |other.group| && other.group[j] in q.rows
    requires other.group[j].order != b.order
    ensures other.group[j] in ConvertOrder(q, b.order, b.group, dryRun, outcome).0.rows
  {
    hide Linked, IdsOf, Total, HasOpen, HasProcessing, Stands;
    var i :| 0 <= i < |q.rows| && q.rows[i] == other.group[j];
    LinkedAt(q, b, |q.requests|, i);
    assert ConvertOrder(q, b.order, b.group, dryRun, outcome).0.rows[i] == q.rows[i];
  }

  lemma EventUnsettled(s: Live, e: Event)
    requires Sound(s) && Unsettled(s) && !(e.Outside? && e.step.Settle?)
    ensures Unsettled(Next(s, e))
  {
    var next := Next(s, e);
    if e.Begin? {
      BeginUnsettled(s);
    } else {
      hide ConvertOrder, Apply;
      forall i, j | 0 <= i < |next.pending| && 0 <= j < |next.pending[i].group|
        ensures next.pending[i].group[j] in next.q.rows
      {
        var m := if e.Turn? && s.pending != [] then i + 1 else i;
        assert next.pending[i] == s.pending[m];
        assert StandsAt(s.q, s.pending[m].order, s.pending[m].group[j]);
        if e.Outside? {
          OutsideUnsettled(s.q, e.step, s.pending[m].group[j]);
        } else if s.pending != [] {
          TurnUnsettled(s.q, s.pending[0], e.dryRun, e.outcome, s.pending[m], j);
        }
      }
    }
  }

  ghost predicate NoneSettled(events: seq<Event>) {
    forall i :: 0 <= i < |events| ==> !(events[i].Outside? && events[i].step.Settle?)
  }

  /** Where nothing is settled by hand, all of the invariant is kept, whatever else happens between the turns. */
  lemma {:induction false} InterleavedKeepsInv(s: Live, events: seq<Event>)
    requires Sound(s) && Balanced(s.q) && Unsettled(s) && NoneSettled(events)
    ensures var after := After(s, events);
            Sound(after) && Balanced(after.q) && Unsettled(after)
  {
    hide Sound, Balanced, Unsettled, Next;
    if events != [] {
      var n := |events| - 1;
      InterleavedKeepsInv(s, events[..n]);
      var before := After(s, events[..n]);
      EventKeepsSound(before, events[n]);
      EventUnsettled(before, events[n]);
      UnsettledAsksRight(before, events[n]);
      EventBalancesExactly(before, events[n]);
    }
  }

  lemma UnsettledAsksRight(s: Live, e: Event)
    requires Unsettled(s)
    ensures !Overasks(s, e)
  {
    if e.Turn? && s.pending != [] { NothingSettled(s.q.rows, s.pending[0].group); }
  }

  // ---------- A row settled in between ----------

  function TwoOwed(): Queue {
    Queue([Row(0, "A", ManualRequired, 1, None, None), Row(1, "A", ManualRequired, 2, None, None)], [])
  }

  const SETTLED_MEANWHILE: seq<Event> := [Begin, Outside(Settle(0)), Turn(false, Done)]

  lemma TwoSelected()
    ensures Next(Live(TwoOwed(), []), Begin) == Live(TwoOwed(), [Batch("A", TwoOwed().rows)])
  {
    var rows := TwoOwed().rows;
    assert rows[..1] == [rows[0]] && rows[..1][..0] == [];
    assert Selected(rows[..1]) == rows[..1];
    assert Selected(rows) == rows;
    assert Orders(rows[..1]) == ["A"] && Orders(rows) == ["A"];
    assert RowsOf(rows[..1], "A") == rows[..1];
    assert rows == rows[..1] + [rows[1]];
    assert RowsOf(rows, "A") == rows;
  }

  lemma OneSettled(rows: seq<Row>, a: Row, b: Row)
    requires a !in rows && b in rows
    ensures SettledMoney(rows, [a, b]) == a.amount
  {
    assert [a, b][..1] == [a] && [a][..0] == [];
    assert SettledMoney(rows, [a]) == a.amount;
  }

  lemma AfterThree(s: Live, a: Event, b: Event, c: Event)
    ensures After(s, [a, b, c]) == Next(Next(Next(s, a), b), c)
  {
    hide Next;
    assert [a, b, c][..2] == [a, b] && [a, b][..1] == [a] && [a][..0] == [];
    assert After(s, [a]) == Next(s, a);
    assert After(s, [a, b]) == Next(Next(s, a), b);
  }

  lemma TwoOwedInv()
    ensures Inv(TwoOwed()) && Sound(Live(TwoOwed(), []))
  {
  }

  /** The first row paid by hand, both still in the batch. */
  function OnePaid(): Live {
    var rows := TwoOwed().rows;
    Live(Queue([rows[0].(status := RowStatus.Completed), rows[1]], []), [Batch("A", rows)])
  }

  lemma PaidState()
    ensures Next(Live(TwoOwed(), [Batch("A", TwoOwed().rows)]), Outside(Settle(0))) == OnePaid()
  {
    hide AfterRun;
  }

  lemma PaidBalanced()
    ensures Balanced(OnePaid().q)
  {
  }

  lemma PaidOverasks()
    ensures Overasks(OnePaid(), Turn(false, Done))
  {
    var rows, paid := TwoOwed().rows, OnePaid().q.rows;
    OneSettled(paid, rows[0], rows[1]);
    hide SettledMoney;
    assert OnePaid().pending[0].group == rows == [rows[0], rows[1]];
    assert rows[1] in paid;
  }

  /** One of an order's two rows is settled between the selection and the order's turn: its request asks for
      both, and the row still owed is the only one linked. */
  lemma SettledMeanwhileIsAskedFor()
    ensures Inv(TwoOwed()) && !Balanced(After(Live(TwoOwed(), []), SETTLED_MEANWHILE).q)
  {
    hide Next, Sound, Balanced, Overasks, OnePaid, TwoOwed;
    TwoOwedInv();
    TwoSelected();
    PaidState();
    PaidOverasks();
    var s := Live(TwoOwed(), []);
    AfterThree(s, Begin, Outside(Settle(0)), Turn(false, Done));
    EventKeepsSound(s, Begin);
    EventKeepsSound(Next(s, Begin), Outside(Settle(0)));
    PaidBalanced();
    EventBalancesExactly(OnePaid(), Turn(false, Done));
  }

  // ---------- Is any row asked for twice? ----------

  /** A row a request names is linked to it, was turned down with it, or was settled by hand. */
  predicate Answered(q: Queue, k: nat, id: nat) {
    ClaimStands(q, k, id)
    || (id < |q.rows| && q.rows[id].request.None? && q.rows[id].status == RowStatus.Completed)
  }

  predicate AllAnswered(q: Queue) {
    forall k, id :: 0 <= k < |q.requests| && id in q.requests[k].rows ==> Answered(q, k, id)
  }

  /** No request names a row whose turn is still to come. */
  predicate Unnamed(s: Live) {
    forall k, i, r :: 0 <= k < |s.q.requests| && 0 <= i < |s.pending| && r in s.pending[i].group
      ==> r.id !in s.q.requests[k].rows
  }

  predicate NamedOnce(s: Live) {
    AllAnswered(s.q) && Unnamed(s) && AskedOnce(s.q.requests)
  }

  ghost predicate WritesLink(e: Event) {
    e.Turn? ==> e.outcome != LinkLost
  }

  lemma BeginNamesOnce(s: Live)
    requires Sound(s) && NamedOnce(s)
    ensures NamedOnce(Next(s, Begin))
  {
    var next := Next(s, Begin);
    hide Orders, RowsOf, Selected, AskedOnce;
    forall k, i, r | 0 <= k < |s.q.requests| && 0 <= i < |next.pending| && r in next.pending[i].group
      ensures r.id !in s.q.requests[k].rows
    {
      RowsOfMember(Selected(s.q.rows), next.pending[i].order, r);
      SelectedMember(s.q.rows, r);
      assert r.id in s.q.requests[k].rows ==> Answered(s.q, k, r.id);
    }
  }

  lemma OutsideAnswers(q: Queue, step: OutsideStep, k: nat, id: nat)
    requires WellLinked(q) && Answered(q, k, id)
    ensures Answered(Apply(q, step), k, id)
  {
    hide AfterRun, HasOpen;
  }

  lemma OutsideRequests(q: Queue, step: OutsideStep)
    ensures var after := Apply(q, step).requests;
            |q.requests| <= |after| && forall k :: 0 <= k < |after| ==>
              after[k].rows == if k < |q.requests| then q.requests[k].rows else []
  {
    hide AfterRun, HasOpen;
  }

  lemma OutsideNamesOnce(s: Live, step: OutsideStep)
    requires Sound(s) && NamedOnce(s)
    ensures NamedOnce(Next(s, Outside(step)))
  {
    hide Apply, Answered, Stands, WellLinked, OneOpen;
    var next := Next(s, Outside(step));
    OutsideRequests(s.q, step);
    forall k, id | 0 <= k < |next.q.requests| && id in next.q.requests[k].rows ensures Answered(next.q, k, id) {
      OutsideAnswers(s.q, step, k, id);
    }
  }

  /** The turn's own rows are linked by it, or were settled. */
  lemma TurnAnswersItsOwn(q: Queue, b: Batch, j: nat)
    requires WellLinked(q) && Stands(q, b) && j < |b.group|
    ensures var r := Request(b.order, Total(b.group), true, IdsOf(b.group));
            Answered(Queue(Linked(q.rows, IdsOf(b.group), |q.requests|), q.requests + [r]), |q.requests|, b.group[j].id)
  {
    hide Linked, IdsOf, Total;
    OpenRow(q, b, j);
    LinkedAt(q, b, |q.requests|, b.group[j].id);
    assert StandsAt(q, b.order, b.group[j]);
  }

  lemma TurnAnswersOthers(q: Queue, b: Batch, k: nat, id: nat)
    requires WellLinked(q) && Stands(q, b) && k < |q.requests| && Answered(q, k, id)
    ensures var r := Request(b.order, Total(b.group), true, IdsOf(b.group));
            Answered(Queue(Linked(q.rows, IdsOf(b.group), |q.requests|), q.requests + [r]), k, id)
  {
    hide Linked, IdsOf, Total, Stands;
    LinkedAt(q, b, |q.requests|, id);
  }

  lemma TurnAnswers(q: Queue, b: Batch)
    requires WellLinked(q) && Stands(q, b) && AllAnswered(q)
    ensures var r := Request(b.order, Total(b.group), true, IdsOf(b.group));
            AllAnswered(Queue(Linked(q.rows, IdsOf(b.group), |q.requests|), q.requests + [r]))
  {
    var r := Request(b.order, Total(b.group), true, IdsOf(b.group));
    var after := Queue(Linked(q.rows, IdsOf(b.group), |q.requests|), q.requests + [r]);
    hide WellLinked, Stands, Answered, Linked, Total;
    forall k, id | 0 <= k < |after.requests| && id in after.requests[k].rows ensures Answered(after, k, id) {
      if k < |q.requests| {
        assert Answered(q, k, id);
        TurnAnswersOthers(q, b, k, id);
      } else {
        var j :| 0 <= j < |IdsOf(b.group)| && IdsOf(b.group)[j] == id;
        TurnAnswersItsOwn(q, b, j);
      }
    }
  }

  lemma TurnNames(s: Live)
    requires Sound(s) && s.pending != [] && Unnamed(s) && AskedOnce(s.q.requests)
    ensures var b := s.pending[0];
            var requests := s.q.requests + [Request(b.order, Total(b.group), true, IdsOf(b.group))];
            && AskedOnce(requests)
            && forall k, i, r :: 0 <= k < |requests| && 0 < i < |s.pending| && r in s.pending[i].group
                 ==> r.id !in requests[k].rows
  {
    var b := s.pending[0];
    hide Total;
    var requests := s.q.requests + [Request(b.order, Total(b.group), true, IdsOf(b.group))];
    forall j, k, id | 0 <= j < k < |requests| && id in requests[j].rows ensures id !in requests[k].rows {
      if k == |s.q.requests| {
        forall m | 0 <= m < |b.group| ensures IdsOf(b.group)[m] != id { assert b.group[m] in b.group; }
      }
    }
    forall k, i, r | 0 <= k < |requests| && 0 < i < |s.pending| && r in s.pending[i].group
      ensures r.id !in requests[k].rows
    {
      if k == |s.q.requests| && r.id in IdsOf(b.group) { BatchesApart(s, i, r); }
    }
  }

  /** No row is in two batches. */
  lemma BatchesApart(s: Live, i: nat, r: Row)
    requires Sound(s) && 0 < i < |s.pending| && r in s.pending[i].group
    ensures r.id !in IdsOf(s.pending[0].group)
  {
    var b, ids := s.pending[0], IdsOf(s.pending[0].group);
    var m :| 0 <= m < |s.pending[i].group| && s.pending[i].group[m] == r;
    assert StandsAt(s.q, s.pending[i].order, s.pending[i].group[m]);
    forall j | 0 <= j < |ids| ensures ids[j] != r.id {
      assert StandsAt(s.q, b.order, b.group[j]);
    }
  }

  lemma TurnNamesOnce(s: Live, dryRun: bool, outcome: Outcome)
    requires Sound(s) && NamedOnce(s) && outcome != LinkLost
    ensures NamedOnce(Next(s, Turn(dryRun, outcome)))
  {
    if s.pending != [] {
      hide AllAnswered, AskedOnce, Stands, WellLinked, OneOpen, Linked, IdsOf, Total, HasOpen, HasProcessing;
      TurnAnswers(s.q, s.pending[0]);
      TurnNames(s);
    }
  }

  /** While every link is written, no row is named by two requests, whatever happens between the turns,
      rows settled by hand included. */
  lemma {:induction false} InterleavedAsksOnce(s: Live, events: seq<Event>)
    requires Sound(s) && NamedOnce(s) && forall i :: 0 <= i < |events| ==> WritesLink(events[i])
    ensures Sound(After(s, events)) && NamedOnce(After(s, events))
  {
    hide Sound, NamedOnce, Next;
    if events != [] {
      var n := |events| - 1;
      InterleavedAsksOnce(s, events[..n]);
      var before := After(s, events[..n]);
      EventKeepsSound(before, events[n]);
      match events[n]
      case Begin => BeginNamesOnce(before);
      case Turn(dryRun, outcome) => TurnNamesOnce(before, dryRun, outcome);
      case Outside(step) => OutsideNamesOnce(before, step);
    }
  }
}
