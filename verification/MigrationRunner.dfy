/** The migration runner: `applyAll` over the ledger, and the registry check before it.

    Whatever the migrations exit with, over any history of plain `up` runs, what has been applied is a
    prefix of the declared order. */
module MigrationRunner {
  import opened Options
  import MigrationStatus

  datatype Migration = Migration(name: string, file: string, checksum: string, dryRun: bool)

  datatype Row = Row(environment: string, name: string, checksum: string, success: bool)

  /** The ledger rows of one migration in one environment, oldest first. */
  function RowsOf(ledger: seq<Row>, environment: string, name: string): (r: seq<Row>)
    ensures forall x :: x in r ==> x in ledger && x.environment == environment && x.name == name
  {
    if ledger == [] then []
    else
      var last := ledger[|ledger| - 1];
      RowsOf(ledger[..|ledger| - 1], environment, name)
      + if last.environment == environment && last.name == name then [last] else []
  }

  /** The rows with their times: rows are written one after the other. */
  function Timed(rows: seq<Row>): seq<MigrationStatus.LedgerRow> {
    seq(|rows|, i requires 0 <= i < |rows| => MigrationStatus.LedgerRow(rows[i].checksum, i, rows[i].success))
  }

  predicate IsPending(ledger: seq<Row>, environment: string, m: Migration) {
    MigrationStatus.NeedsApplying(MigrationStatus.Resolve(Timed(RowsOf(ledger, environment, m.name)), m.checksum))
  }

  function Queue(migrations: seq<Migration>, ledger: seq<Row>, environment: string): seq<Migration> {
    if migrations == [] then []
    else (if IsPending(ledger, environment, migrations[0]) then [migrations[0]] else [])
         + Queue(migrations[1..], ledger, environment)
  }

  /** The exit code each binding finishes with in one run; None when it could not be spawned. */
  type Exits = string -> Option<int>

  /** The rows a run writes: in order, and none after the first failure. */
  function RowsWritten(queue: seq<Migration>, environment: string, dryRun: bool, exits: Exits): seq<Row> {
    if queue == [] then []
    else
      var m := queue[0];
      if dryRun && !m.dryRun then RowsWritten(queue[1..], environment, dryRun, exits)
      else
        var ok := exits(m.name) == Some(0);
        (if dryRun then [] else [Row(environment, m.name, m.checksum, ok)])
        + if ok then RowsWritten(queue[1..], environment, dryRun, exits) else []
  }

  function Failures(queue: seq<Migration>, dryRun: bool, exits: Exits): nat {
    if queue == [] then 0
    else if dryRun && !queue[0].dryRun then Failures(queue[1..], dryRun, exits)
    else if exits(queue[0].name) == Some(0) then Failures(queue[1..], dryRun, exits)
    else 1
  }

  class Runner {
    const migrations: seq<Migration>
    const environment: string
    var ledger: seq<Row>

    constructor (migrations: seq<Migration>, environment: string, ledger: seq<Row>)
      ensures this.migrations == migrations && this.environment == environment && this.ledger == ledger
    {
      this.migrations, this.environment, this.ledger := migrations, environment, ledger;
    }

    /** `up`: applies what is pending, or the one migration named; Err when that name is unknown. */
    method ApplyAll(only: Option<string>, dryRun: bool, exits: Exits) returns (r: Result<nat, string>)
      modifies this
      ensures only == None ==>
                var queue := Queue(migrations, old(ledger), environment);
                r == Ok(Failures(queue, dryRun, exits))
                && ledger == old(ledger) + RowsWritten(queue, environment, dryRun, exits)
      ensures only.Some? && r.Ok? ==>
                exists i :: 0 <= i < |migrations| && migrations[i].name == only.value
                  && (forall k :: 0 <= k < i ==> migrations[k].name != only.value)
                  && r.value == Failures([migrations[i]], dryRun, exits)
                  && ledger == old(ledger) + RowsWritten([migrations[i]], environment, dryRun, exits)
      ensures r.Err? <==> only.Some? && forall m :: m in migrations ==> m.name != only.value
      ensures r.Err? ==> ledger == old(ledger)
    {
      hide Queue, RowsWritten, Failures;
      var queue := Queue(migrations, ledger, environment);
      if only.Some? {
        var i := 0;
        while i < |migrations| && migrations[i].name != only.value
          invariant 0 <= i <= |migrations|
          invariant forall k :: 0 <= k < i ==> migrations[k].name != only.value
        {
          i := i + 1;
        }
        if i == |migrations| { return Err(only.value); }
        queue := [migrations[i]];
      }
      var failures := RunQueue(queue, dryRun, exits);
      return Ok(failures);
    }

    method RunQueue(queue: seq<Migration>, dryRun: bool, exits: Exits) returns (failures: nat)
      modifies this
      ensures failures == Failures(queue, dryRun, exits)
      ensures ledger == old(ledger) + RowsWritten(queue, environment, dryRun, exits)
    {
      hide RowsWritten, Failures;
      failures := 0;
      var i := 0;
      assert queue[0..] == queue;
      while i < |queue|
        invariant 0 <= i <= |queue| && failures == 0
        invariant old(ledger) + RowsWritten(queue, environment, dryRun, exits) ==
                  ledger + RowsWritten(queue[i..], environment, dryRun, exits)
        invariant Failures(queue, dryRun, exits) == Failures(queue[i..], dryRun, exits)
      {
        var m := queue[i];
        RunStep(queue, i, environment, dryRun, exits);
        if dryRun && !m.dryRun { i := i + 1; continue; }
        var ok := exits(m.name) == Some(0);
        ghost var tail := if ok then RowsWritten(queue[i + 1..], environment, dryRun, exits) else [];
        if !dryRun {
          Assoc(ledger, [Row(environment, m.name, m.checksum, ok)], tail);
          ledger := ledger + [Row(environment, m.name, m.checksum, ok)];
        }
        if !ok {
          failures := failures + 1;
          return;
        }
        i := i + 1;
      }
      RunNothing(environment, dryRun, exits);
      assert queue[i..] == [];
    }
  }

  lemma Assoc(a: seq<Row>, b: seq<Row>, c: seq<Row>)
    ensures (a + b) + c == a + (b + c)
  {
  }

  lemma RunNothing(environment: string, dryRun: bool, exits: Exits)
    ensures RowsWritten([], environment, dryRun, exits) == [] && Failures([], dryRun, exits) == 0
  {
  }

  lemma RunStep(queue: seq<Migration>, i: nat, environment: string, dryRun: bool, exits: Exits)
    requires i < |queue|
    ensures var m, rest := queue[i], queue[i + 1..];
            var ok := exits(m.name) == Some(0);
            if dryRun && !m.dryRun then
              && RowsWritten(queue[i..], environment, dryRun, exits) == RowsWritten(rest, environment, dryRun, exits)
              && Failures(queue[i..], dryRun, exits) == Failures(rest, dryRun, exits)
            else
              && RowsWritten(queue[i..], environment, dryRun, exits) ==
                 (if dryRun then [] else [Row(environment, m.name, m.checksum, ok)])
                 + (if ok then RowsWritten(rest, environment, dryRun, exits) else [])
              && Failures(queue[i..], dryRun, exits) == (if ok then Failures(rest, dryRun, exits) else 1)
  {
    assert queue[i..][1..] == queue[i + 1..];
  }

  // ---------- Histories ----------

  /** One `up` without `--only`. */
  datatype Up = Up(environment: string, dryRun: bool, exits: Exits)

  function LedgerAfter(migrations: seq<Migration>, history: seq<Up>): seq<Row> {
    if history == [] then []
    else
      var before := LedgerAfter(migrations, history[..|history| - 1]);
      var up := history[|history| - 1];
      before + RowsWritten(Queue(migrations, before, up.environment), up.environment, up.dryRun, up.exits)
  }

  predicate UniqueNames(migrations: seq<Migration>) {
    forall i, j :: 0 <= i < j < |migrations| ==> migrations[i].name != migrations[j].name
  }

  predicate Applied(ledger: seq<Row>, environment: string, m: Migration) {
    exists r :: r in ledger && r == Row(environment, m.name, m.checksum, true)
  }

  /** Exactly the first `k` migrations have run to success, and nothing beyond the next has been tried. */
  ghost predicate Frontier(migrations: seq<Migration>, ledger: seq<Row>, environment: string, k: nat) {
    && k <= |migrations|
    && (forall i :: 0 <= i < k ==>
          var rows := RowsOf(ledger, environment, migrations[i].name);
          rows != [] && rows[|rows| - 1] == Row(environment, migrations[i].name, migrations[i].checksum, true))
    && (forall i :: k <= i < |migrations| ==> !Applied(ledger, environment, migrations[i]))
    && (forall i :: k < i < |migrations| ==> RowsOf(ledger, environment, migrations[i].name) == [])
  }

  lemma {:induction false} RowsOfConcat(a: seq<Row>, b: seq<Row>, environment: string, name: string)
    ensures RowsOf(a + b, environment, name) == RowsOf(a, environment, name) + RowsOf(b, environment, name)
  {
    if b == [] {
      assert a + b == a;
    } else {
      assert (a + b)[..|a + b| - 1] == a + b[..|b| - 1];
      RowsOfConcat(a, b[..|b| - 1], environment, name);
    }
  }

  lemma RowsOfOne(r: Row, environment: string, name: string)
    ensures RowsOf([r], environment, name) == if r.environment == environment && r.name == name then [r] else []
  {
    assert [r][..0] == [];
  }

  lemma NeverRunIsPending(rows: seq<Row>, checksum: string)
    requires forall r :: r in rows && r.success ==> r.checksum != checksum
    ensures MigrationStatus.NeedsApplying(MigrationStatus.Resolve(Timed(rows), checksum))
  {
    var timed := Timed(rows);
    forall r | r in timed && r.success ensures r.checksum != checksum {
      var i :| 0 <= i < |timed| && timed[i] == r;
      assert rows[i] in rows;
    }
    MigrationStatus.NeverRunNeedsApplying(timed, checksum);
  }

  lemma RunLastIsNotPending(rows: seq<Row>, checksum: string)
    requires rows != [] && rows[|rows| - 1].success && rows[|rows| - 1].checksum == checksum
    ensures !MigrationStatus.NeedsApplying(MigrationStatus.Resolve(Timed(rows), checksum))
  {
    var timed := Timed(rows);
    MigrationStatus.StatusExactly(timed, timed[|rows| - 1], timed[|rows| - 1], checksum);
  }

  /** At a frontier the queue is exactly the rest of the list. */
  lemma {:induction false} QueueIsRest(migrations: seq<Migration>, ledger: seq<Row>, environment: string,
                                       k: nat, from: nat)
    requires Frontier(migrations, ledger, environment, k) && from <= |migrations|
    ensures Queue(migrations[from..], ledger, environment) == migrations[if from < k then k else from..]
    decreases |migrations| - from
  {
    hide Frontier, IsPending;
    if from < |migrations| {
      QueueIsRest(migrations, ledger, environment, k, from + 1);
      assert migrations[from..][1..] == migrations[from + 1..];
      PendingExactly(migrations, ledger, environment, k, from);
      assert migrations[from..] == [migrations[from]] + migrations[from + 1..];
    } else {
      FrontierWithin(migrations, ledger, environment, k);
    }
  }

  lemma FrontierWithin(migrations: seq<Migration>, ledger: seq<Row>, environment: string, k: nat)
    requires Frontier(migrations, ledger, environment, k)
    ensures k <= |migrations|
  {
  }

  lemma PendingExactly(migrations: seq<Migration>, ledger: seq<Row>, environment: string, k: nat, i: nat)
    requires Frontier(migrations, ledger, environment, k) && i < |migrations|
    ensures k <= |migrations| && (IsPending(ledger, environment, migrations[i]) <==> i >= k)
  {
    var m, rows := migrations[i], RowsOf(ledger, environment, migrations[i].name);
    if i >= k {
      forall r | r in rows && r.success ensures r.checksum != m.checksum {
        assert r in ledger;
        assert r == Row(environment, m.name, r.checksum, true);
      }
      NeverRunIsPending(rows, m.checksum);
    } else {
      RunLastIsNotPending(rows, m.checksum);
    }
  }

  /** A run from a frontier moves it forward, by as many migrations as succeeded before the first failure. */
  lemma {:induction false} FrontierMoves(migrations: seq<Migration>, ledger: seq<Row>, environment: string,
                                         exits: Exits, k: nat) returns (k': nat)
    requires UniqueNames(migrations) && Frontier(migrations, ledger, environment, k)
    ensures k <= k'
    ensures Frontier(migrations, ledger + RowsWritten(migrations[k..], environment, false, exits), environment, k')
    decreases |migrations| - k
  {
    var rest := migrations[k..];
    if rest == [] {
      assert ledger + [] == ledger;
      k' := k;
    } else {
      var m := migrations[k];
      var ok := exits(m.name) == Some(0);
      var next := ledger + [Row(environment, m.name, m.checksum, ok)];
      FrontierRow(migrations, ledger, environment, k, ok);
      assert rest[0] == m && rest[1..] == migrations[k + 1..];
      var tail := if ok then RowsWritten(rest[1..], environment, false, exits) else [];
      Assoc(ledger, [Row(environment, m.name, m.checksum, ok)], tail);
      hide Frontier;
      if ok {
        k' := FrontierMoves(migrations, next, environment, exits, k + 1);
      } else {
        k' := k;
        assert next + [] == next;
      }
    }
  }

  /** Recording the next migration's outcome. */
  lemma FrontierRow(migrations: seq<Migration>, ledger: seq<Row>, environment: string, k: nat, ok: bool)
    requires UniqueNames(migrations) && Frontier(migrations, ledger, environment, k) && k < |migrations|
    ensures Frontier(migrations, ledger + [Row(environment, migrations[k].name, migrations[k].checksum, ok)],
                     environment, if ok then k + 1 else k)
  {
    hide RowsOf;
    var row := Row(environment, migrations[k].name, migrations[k].checksum, ok);
    var next := ledger + [row];
    forall i | 0 <= i < |migrations|
      ensures RowsOf(next, environment, migrations[i].name) ==
              RowsOf(ledger, environment, migrations[i].name) + (if i == k then [row] else [])
      ensures Applied(next, environment, migrations[i]) ==>
                Applied(ledger, environment, migrations[i]) || (i == k && ok)
    {
      RowsOfConcat(ledger, [row], environment, migrations[i].name);
      RowsOfOne(row, environment, migrations[i].name);
    }
  }

  lemma {:induction false} DryRunsWriteNothing(queue: seq<Migration>, environment: string, exits: Exits)
    ensures RowsWritten(queue, environment, true, exits) == []
  {
    if queue != [] { DryRunsWriteNothing(queue[1..], environment, exits); }
  }

  lemma {:induction false} RowsWrittenEnvironment(queue: seq<Migration>, environment: string, dryRun: bool,
                                                  exits: Exits)
    ensures forall r :: r in RowsWritten(queue, environment, dryRun, exits) ==> r.environment == environment
  {
    if queue != [] { RowsWrittenEnvironment(queue[1..], environment, dryRun, exits); }
  }

  lemma {:induction false} OtherEnvironmentsRows(rows: seq<Row>, environment: string, name: string)
    requires forall r :: r in rows ==> r.environment != environment
    ensures RowsOf(rows, environment, name) == []
  {
    if rows != [] {
      assert rows == rows[..|rows| - 1] + [rows[|rows| - 1]];
      OtherEnvironmentsRows(rows[..|rows| - 1], environment, name);
    }
  }

  lemma FrontierIgnoresOthers(migrations: seq<Migration>, ledger: seq<Row>, rows: seq<Row>, environment: string, k: nat)
    requires Frontier(migrations, ledger, environment, k)
    requires forall r :: r in rows ==> r.environment != environment
    ensures Frontier(migrations, ledger + rows, environment, k)
  {
    forall i | 0 <= i < |migrations|
      ensures RowsOf(ledger + rows, environment, migrations[i].name) == RowsOf(ledger, environment, migrations[i].name)
      ensures Applied(ledger + rows, environment, migrations[i]) ==> Applied(ledger, environment, migrations[i])
    {
      RowsOfConcat(ledger, rows, environment, migrations[i].name);
      OtherEnvironmentsRows(rows, environment, migrations[i].name);
    }
  }

  /** Over any history of runs the ledger sits at a frontier, in every environment. */
  lemma {:induction false} AlwaysAFrontier(migrations: seq<Migration>, history: seq<Up>,
                                           environment: string) returns (k: nat)
    requires UniqueNames(migrations)
    ensures Frontier(migrations, LedgerAfter(migrations, history), environment, k)
  {
    if history == [] {
      k := 0;
    } else {
      var init, up := history[..|history| - 1], history[|history| - 1];
      var before := LedgerAfter(migrations, init);
      k := AlwaysAFrontier(migrations, init, environment);
      var queue := Queue(migrations, before, up.environment);
      var rows := RowsWritten(queue, up.environment, up.dryRun, up.exits);
      if up.environment != environment {
        RowsWrittenEnvironment(queue, up.environment, up.dryRun, up.exits);
        FrontierIgnoresOthers(migrations, before, rows, environment, k);
      } else if up.dryRun {
        DryRunsWriteNothing(queue, environment, up.exits);
        assert before + [] == before;
      } else {
        QueueIsRest(migrations, before, environment, k, 0);
        assert migrations[0..] == migrations;
        k := FrontierMoves(migrations, before, environment, up.exits, k);
      }
    }
  }

  /** The applied migrations are always a prefix of the declared order. */
  lemma AppliedIsAPrefix(migrations: seq<Migration>, history: seq<Up>, environment: string,
                         i: nat, j: nat)
    requires UniqueNames(migrations) && i < j < |migrations|
    ensures var ledger := LedgerAfter(migrations, history);
            Applied(ledger, environment, migrations[j]) ==> Applied(ledger, environment, migrations[i])
  {
    var ledger := LedgerAfter(migrations, history);
    var k := AlwaysAFrontier(migrations, history, environment);
    if i < k {
      var rows := RowsOf(ledger, environment, migrations[i].name);
      assert rows[|rows| - 1] in rows;
      assert rows[|rows| - 1] in ledger;
    }
  }

  /** Nothing runs after a failure in its run: only a run's last row can be a failure, and the rows
      follow the queue without a gap. */
  lemma {:induction false} NothingAfterAFailure(queue: seq<Migration>, environment: string, exits: Exits)
    ensures var rows := RowsWritten(queue, environment, false, exits);
            && |rows| <= |queue|
            && (forall i :: 0 <= i < |rows| ==> rows[i].name == queue[i].name && rows[i].checksum == queue[i].checksum)
            && (forall i :: 0 <= i < |rows| - 1 ==> rows[i].success)
            && (|rows| < |queue| ==> rows != [] && !rows[|rows| - 1].success)
            && Failures(queue, false, exits) == (if rows != [] && !rows[|rows| - 1].success then 1 else 0)
  {
    if queue != [] {
      NothingAfterAFailure(queue[1..], environment, exits);
    }
  }

  lemma FrontierComplete(migrations: seq<Migration>, ledger: seq<Row>, environment: string, k: nat)
    requires Frontier(migrations, ledger, environment, k)
    ensures k == |migrations| || exists i :: 0 <= i < |migrations| && !Applied(ledger, environment, migrations[i])
  {
    hide Applied, RowsOf;
    if k < |migrations| { assert !Applied(ledger, environment, migrations[k]); }
  }

  /** Once every migration is applied, a further `up` writes nothing and reports no failure. */
  lemma NothingLeftToApply(migrations: seq<Migration>, history: seq<Up>, up: Up)
    requires UniqueNames(migrations)
    requires forall i :: 0 <= i < |migrations| ==>
               Applied(LedgerAfter(migrations, history), up.environment, migrations[i])
    ensures LedgerAfter(migrations, history + [up]) == LedgerAfter(migrations, history)
    ensures Queue(migrations, LedgerAfter(migrations, history), up.environment) == []
  {
    var ledger := LedgerAfter(migrations, history);
    var k := AlwaysAFrontier(migrations, history, up.environment);
    FrontierComplete(migrations, ledger, up.environment, k);
    hide LedgerAfter, RowsOf, Frontier;
    QueueIsRest(migrations, ledger, up.environment, k, 0);
    assert migrations[0..] == migrations && migrations[k..] == [];
    LedgerSnoc(migrations, history, up);
    RunNothing(up.environment, up.dryRun, up.exits);
    assert ledger + [] == ledger;
  }

  lemma LedgerSnoc(migrations: seq<Migration>, history: seq<Up>, up: Up)
    ensures var before := LedgerAfter(migrations, history);
            LedgerAfter(migrations, history + [up]) ==
            before + RowsWritten(Queue(migrations, before, up.environment), up.environment, up.dryRun, up.exits)
  {
    assert (history + [up])[..|history|] == history;
  }

  /** `--only` is what can break the order: from a frontier, a successful run of the j-th migration
      leaves a prefix exactly when everything before it was applied. */
  lemma OnlyKeepsOrderExactly(migrations: seq<Migration>, ledger: seq<Row>, environment: string, k: nat, j: nat,
                              exits: Exits)
    requires UniqueNames(migrations) && Frontier(migrations, ledger, environment, k) && j < |migrations|
    requires exits(migrations[j].name) == Some(0)
    ensures var after := ledger + RowsWritten([migrations[j]], environment, false, exits);
            (forall a, b :: 0 <= a < b < |migrations| && Applied(after, environment, migrations[b])
               ==> Applied(after, environment, migrations[a]))
            <==> j <= k
  {
    var m := migrations[j];
    var row := Row(environment, m.name, m.checksum, true);
    assert [m][1..] == [] && RowsWritten([], environment, false, exits) == [];
    assert RowsWritten([m], environment, false, exits) == [row];
    var after := ledger + RowsWritten([m], environment, false, exits);
    assert after == ledger + [row];
    forall i | 0 <= i < |migrations|
      ensures Applied(after, environment, migrations[i]) <==> i < k || i == j
    {
      AppliedAfterOne(migrations, ledger, environment, k, j, i);
    }
    if j > k {
      assert Applied(after, environment, migrations[j]) && !Applied(after, environment, migrations[k]);
    }
  }

  lemma AppliedAfterOne(migrations: seq<Migration>, ledger: seq<Row>, environment: string, k: nat, j: nat, i: nat)
    requires UniqueNames(migrations) && Frontier(migrations, ledger, environment, k) && j < |migrations|
             && i < |migrations|
    ensures var row := Row(environment, migrations[j].name, migrations[j].checksum, true);
            Applied(ledger + [row], environment, migrations[i]) <==> i < k || i == j
  {
    hide RowsOf;
    var row := Row(environment, migrations[j].name, migrations[j].checksum, true);
    var after := ledger + [row];
    if i < k {
      var rows := RowsOf(ledger, environment, migrations[i].name);
      assert rows[|rows| - 1] in rows;
      assert rows[|rows| - 1] in ledger && rows[|rows| - 1] in after;
    } else if i == j {
      assert row in after;
    } else {
      assert !Applied(ledger, environment, migrations[i]);
    }
  }

  // ---------- The registry ----------

  datatype Problem = Untracked(names: set<string>) | Phantom(names: set<string>) | Duplicated | MissingFiles

  predicate IsBinding(script: string) {
    ("migrate:" <= script || "backfill:" <= script) && script != "migrate:status" && script != "migrate:up"
  }

  function Names(migrations: seq<Migration>): set<string> {
    set i | 0 <= i < |migrations| :: migrations[i].name
  }

  /** A name that `package.json` gives a migration of its own. */
  ghost predicate Bound(scripts: set<string>, name: string) {
    && name in scripts && name !in {"migrate:status", "migrate:up"}
    && ((|name| >= 8 && name[..8] == "migrate:") || (|name| >= 9 && name[..9] == "backfill:"))
  }

  ghost predicate Registered(migrations: seq<Migration>, name: string) {
    exists i :: 0 <= i < |migrations| && migrations[i].name == name
  }

  /** What each problem says. */
  ghost predicate Holds(p: Problem, scripts: set<string>, migrations: seq<Migration>, files: set<string>) {
    match p
    case Untracked(names) =>
      names != {} && forall n :: n in names <==> Bound(scripts, n) && !Registered(migrations, n)
    case Phantom(names) =>
      names != {} && forall n :: n in names <==> Registered(migrations, n) && !Bound(scripts, n)
    case Duplicated => exists i, j :: 0 <= i < j < |migrations| && migrations[i].name == migrations[j].name
    case MissingFiles => exists i :: 0 <= i < |migrations| && migrations[i].file !in files
  }

  lemma BoundExactly(scripts: set<string>, name: string)
    ensures Bound(scripts, name) <==> name in scripts && IsBinding(name)
  {
    assert "migrate:" <= name <==> |name| >= 8 && name[..8] == "migrate:";
    assert "backfill:" <= name <==> |name| >= 9 && name[..9] == "backfill:";
  }

  /** The problems `assertRegistryCovers` throws on: all there are. `files` is what exists on disk. */
  method AssertRegistryCovers(scripts: set<string>, migrations: seq<Migration>, files: set<string>)
    returns (problems: seq<Problem>)
    ensures forall p :: p in problems <==> Holds(p, scripts, migrations, files)
    ensures problems == [] <==>
              && (forall n :: Bound(scripts, n) <==> Registered(migrations, n))
              && (forall i, j :: 0 <= i < j < |migrations| ==> migrations[i].name != migrations[j].name)
              && forall i :: 0 <= i < |migrations| ==> migrations[i].file in files
  {
    var bindings := set s | s in scripts && IsBinding(s);
    var registered := Names(migrations);
    problems := [];
    if bindings - registered != {} { problems := problems + [Untracked(bindings - registered)]; }
    if registered - bindings != {} { problems := problems + [Phantom(registered - bindings)]; }
    if !UniqueNames(migrations) { problems := problems + [Duplicated]; }
    if exists i :: 0 <= i < |migrations| && migrations[i].file !in files { problems := problems + [MissingFiles]; }
    forall n ensures Bound(scripts, n) <==> n in bindings {
      BoundExactly(scripts, n);
    }
    assert forall n :: Registered(migrations, n) <==> n in registered;
    hide Bound, Registered, Names, IsBinding;
    forall p ensures p in problems <==> Holds(p, scripts, migrations, files) {
      NamesDecide(p, bindings, registered, scripts, migrations, files);
    }
    assert registered == bindings <==> bindings - registered == {} && registered - bindings == {};
  }

  /** A list of names is a problem exactly when it is the whole list. */
  lemma NamesDecide(p: Problem, bindings: set<string>, registered: set<string>, scripts: set<string>,
                    migrations: seq<Migration>, files: set<string>)
    requires forall n :: Bound(scripts, n) <==> n in bindings
    requires forall n :: Registered(migrations, n) <==> n in registered
    ensures p.Untracked? ==>
              (Holds(p, scripts, migrations, files) <==> p.names == bindings - registered && p.names != {})
    ensures p.Phantom? ==>
              (Holds(p, scripts, migrations, files) <==> p.names == registered - bindings && p.names != {})
  {
    hide Bound, Registered;
  }

  // ---------- What is pending ----------

  /** Ledger row `i` is one of this migration in this environment. */
  ghost predicate RowAt(ledger: seq<Row>, environment: string, name: string, i: int) {
    0 <= i < |ledger| && ledger[i].environment == environment && ledger[i].name == name
  }

  /** The last of the migration's rows that ran to success carries its checksum. */
  ghost predicate LastSuccessIs(ledger: seq<Row>, environment: string, m: Migration) {
    exists i :: RowAt(ledger, environment, m.name, i) && ledger[i].success && ledger[i].checksum == m.checksum
                && forall j :: i < j && RowAt(ledger, environment, m.name, j) ==> !ledger[j].success
  }

  /** The last of the migration's rows is a failure of this very file. */
  ghost predicate LastFailed(ledger: seq<Row>, environment: string, m: Migration) {
    exists i :: RowAt(ledger, environment, m.name, i) && !ledger[i].success && ledger[i].checksum == m.checksum
                && forall j :: i < j ==> !RowAt(ledger, environment, m.name, j)
  }

  /** The same of the migration's own rows. */
  ghost predicate SuccessLast(rows: seq<Row>, checksum: string) {
    exists i :: 0 <= i < |rows| && rows[i].success && rows[i].checksum == checksum
                && forall j :: i < j < |rows| ==> !rows[j].success
  }

  ghost predicate FailureLast(rows: seq<Row>, checksum: string) {
    rows != [] && !rows[|rows| - 1].success && rows[|rows| - 1].checksum == checksum
  }

  lemma {:induction false} FindSuccess(rows: seq<Row>) returns (i: int)
    ensures i == -1 ==> forall j :: 0 <= j < |rows| ==> !rows[j].success
    ensures i != -1 ==> 0 <= i < |rows| && rows[i].success && forall j :: i < j < |rows| ==> !rows[j].success
  {
    if rows == [] {
      i := -1;
    } else if rows[|rows| - 1].success {
      i := |rows| - 1;
    } else {
      i := FindSuccess(rows[..|rows| - 1]);
    }
  }

  lemma NoSuccess(rows: seq<Row>, checksum: string)
    requires forall j :: 0 <= j < |rows| ==> !rows[j].success
    ensures MigrationStatus.NeedsApplying(MigrationStatus.Resolve(Timed(rows), checksum))
  {
    MigrationStatus.NeverSucceeded(Timed(rows), checksum);
    hide MigrationStatus.Resolve;
  }

  lemma SomeSuccess(rows: seq<Row>, i: nat, checksum: string)
    requires i < |rows| && rows[i].success && forall j :: i < j < |rows| ==> !rows[j].success
    ensures MigrationStatus.NeedsApplying(MigrationStatus.Resolve(Timed(rows), checksum)) <==>
            rows[i].checksum != checksum
            || (!rows[|rows| - 1].success && rows[|rows| - 1].checksum == checksum)
  {
    hide MigrationStatus.Resolve;
    var timed := Timed(rows);
    MigrationStatus.StatusExactly(timed, timed[|rows| - 1], timed[i], checksum);
  }

  lemma StatusOfRows(rows: seq<Row>, checksum: string)
    ensures MigrationStatus.NeedsApplying(MigrationStatus.Resolve(Timed(rows), checksum)) <==>
            !(SuccessLast(rows, checksum) && !FailureLast(rows, checksum))
  {
    hide MigrationStatus.Resolve, MigrationStatus.NeedsApplying, Timed;
    var i := FindSuccess(rows);
    if i == -1 {
      NoSuccess(rows, checksum);
    } else {
      SomeSuccess(rows, i, checksum);
      assert SuccessLast(rows, checksum) <==> rows[i].checksum == checksum;
    }
  }

  lemma SuccessLastStep(rows: seq<Row>, r: Row, checksum: string)
    ensures SuccessLast(rows + [r], checksum) <==> if r.success then r.checksum == checksum
                                                   else SuccessLast(rows, checksum)
  {
    var all := rows + [r];
    assert all[|rows|] == r;
    assert forall i :: 0 <= i < |rows| ==> all[i] == rows[i];
    if !r.success && SuccessLast(rows, checksum) {
      var i :| 0 <= i < |rows| && rows[i].success && rows[i].checksum == checksum
               && forall j :: i < j < |rows| ==> !rows[j].success;
      assert all[i] == rows[i];
    }
  }

  lemma LastSuccessStep(ledger: seq<Row>, r: Row, environment: string, m: Migration)
    ensures LastSuccessIs(ledger + [r], environment, m) <==>
            if r.environment == environment && r.name == m.name && r.success then r.checksum == m.checksum
            else LastSuccessIs(ledger, environment, m)
  {
    var all := ledger + [r];
    assert forall i :: 0 <= i < |ledger| ==> all[i] == ledger[i];
    assert all[|ledger|] == r;
    assert forall i :: 0 <= i < |ledger| ==>
      (RowAt(all, environment, m.name, i) <==> RowAt(ledger, environment, m.name, i));
    assert RowAt(all, environment, m.name, |ledger|) <==> r.environment == environment && r.name == m.name;
    hide RowAt;
    RowsInRange(all, environment, m.name);
    RowsInRange(ledger, environment, m.name);
  }

  lemma RowsInRange(ledger: seq<Row>, environment: string, name: string)
    ensures forall i :: RowAt(ledger, environment, name, i) ==> 0 <= i < |ledger|
  {
  }

  lemma LastFailedStep(ledger: seq<Row>, r: Row, environment: string, m: Migration)
    ensures LastFailed(ledger + [r], environment, m) <==>
            if r.environment == environment && r.name == m.name then !r.success && r.checksum == m.checksum
            else LastFailed(ledger, environment, m)
  {
    var all := ledger + [r];
    assert forall i :: 0 <= i < |ledger| ==> all[i] == ledger[i];
    assert all[|ledger|] == r;
    assert forall i :: 0 <= i < |ledger| ==>
      (RowAt(all, environment, m.name, i) <==> RowAt(ledger, environment, m.name, i));
    assert RowAt(all, environment, m.name, |ledger|) <==> r.environment == environment && r.name == m.name;
    hide RowAt;
    RowsInRange(all, environment, m.name);
    RowsInRange(ledger, environment, m.name);
  }

  lemma {:induction false} RowsTell(ledger: seq<Row>, environment: string, m: Migration)
    ensures SuccessLast(RowsOf(ledger, environment, m.name), m.checksum) <==> LastSuccessIs(ledger, environment, m)
    ensures FailureLast(RowsOf(ledger, environment, m.name), m.checksum) <==> LastFailed(ledger, environment, m)
  {
    if ledger != [] {
      var init, r := ledger[..|ledger| - 1], ledger[|ledger| - 1];
      var rows := RowsOf(init, environment, m.name);
      RowsTell(init, environment, m);
      assert ledger == init + [r];
      assert RowsOf(ledger, environment, m.name) ==
             rows + if r.environment == environment && r.name == m.name then [r] else [];
      hide SuccessLast, LastSuccessIs, LastFailed, RowsOf;
      LastSuccessStep(init, r, environment, m);
      LastFailedStep(init, r, environment, m);
      SuccessLastStep(rows, r, m.checksum);
      assert rows + [] == rows;
    }
  }

  /** A migration is pending unless its last success is of the file as it stands and no later failure is. */
  lemma PendingMeans(ledger: seq<Row>, environment: string, m: Migration)
    ensures IsPending(ledger, environment, m) <==>
            !LastSuccessIs(ledger, environment, m) || LastFailed(ledger, environment, m)
  {
    hide SuccessLast, FailureLast, LastSuccessIs, LastFailed, RowsOf, MigrationStatus.Resolve;
    StatusOfRows(RowsOf(ledger, environment, m.name), m.checksum);
    RowsTell(ledger, environment, m);
  }

  /** The queue holds the pending migrations, in the declared order and each as often as it is declared. */
  lemma {:induction false} QueueExactly(migrations: seq<Migration>, i: nat, ledger: seq<Row>, environment: string)
    requires i < |migrations|
    ensures Queue(migrations, ledger, environment) ==
            Queue(migrations[..i], ledger, environment)
            + (if !LastSuccessIs(ledger, environment, migrations[i]) || LastFailed(ledger, environment, migrations[i])
               then [migrations[i]] else [])
            + Queue(migrations[i + 1..], ledger, environment)
  {
    hide IsPending, LastSuccessIs, LastFailed;
    PendingMeans(ledger, environment, migrations[i]);
    assert migrations == migrations[..i] + ([migrations[i]] + migrations[i + 1..]);
    QueueConcat(migrations[..i], [migrations[i]] + migrations[i + 1..], ledger, environment);
    assert ([migrations[i]] + migrations[i + 1..])[1..] == migrations[i + 1..];
  }

  lemma QueueFirst(migrations: seq<Migration>, ledger: seq<Row>, environment: string)
    requires migrations != []
    ensures Queue(migrations, ledger, environment) ==
            (if IsPending(ledger, environment, migrations[0]) then [migrations[0]] else [])
            + Queue(migrations[1..], ledger, environment)
  {
    hide IsPending;
  }

  lemma QueueNothing(ledger: seq<Row>, environment: string)
    ensures Queue([], ledger, environment) == []
  {
  }

  lemma {:induction false} QueueConcat(a: seq<Migration>, b: seq<Migration>, ledger: seq<Row>, environment: string)
    ensures Queue(a + b, ledger, environment) == Queue(a, ledger, environment) + Queue(b, ledger, environment)
  {
    hide IsPending, Queue;
    if a == [] {
      QueueNothing(ledger, environment);
      assert a + b == b && [] + Queue(b, ledger, environment) == Queue(b, ledger, environment);
    } else {
      assert (a + b)[1..] == a[1..] + b;
      QueueFirst(a + b, ledger, environment);
      QueueFirst(a, ledger, environment);
      QueueConcat(a[1..], b, ledger, environment);
      var first := if IsPending(ledger, environment, a[0]) then [a[0]] else [];
      assert first + (Queue(a[1..], ledger, environment) + Queue(b, ledger, environment)) ==
             (first + Queue(a[1..], ledger, environment)) + Queue(b, ledger, environment);
    }
  }
}
