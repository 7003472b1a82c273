/** Publishing and promoting app releases: the ordered gates of `publish`, its one transaction, and the
    two writes of `promote`, over any sequence of runs of either. */
module AppRelease {
  import opened Collections
  import opened Options

  datatype Status = Published | Superseded

  datatype Release = Release(app: string, code: nat, status: Status, deleted: bool)

  /** What is read off the APK: whether its checksum files match, its manifest and its signer, each
      where the tool for it is there. */
  datatype Build = Build(intact: bool, manifest: Option<Manifest>, signer: Option<string>)

  datatype Manifest = Manifest(packageId: string, code: nat)

  datatype Refusal = Corrupt | Unreadable | WrongPackage | DebugSigned | Duplicate | NotHigher

  predicate OccursAt(s: string, part: string, i: nat) {
    i + |part| <= |s| && s[i..i + |part|] == part
  }

  predicate Contains(s: string, part: string) {
    exists i: nat :: i <= |s| && OccursAt(s, part, i)
  }

  predicate DebugKey(subject: string) {
    Contains(subject, "CN=Android Debug") && Contains(subject, "O=Android")
  }

  predicate Live(r: Release, app: string) {
    r.app == app && !r.deleted
  }

  predicate Shown(r: Release, app: string) {
    Live(r, app) && r.status == Published
  }

  predicate Has(rows: seq<Release>, app: string, code: nat) {
    exists i :: 0 <= i < |rows| && Live(rows[i], app) && rows[i].code == code
  }

  /** The app's published row with the highest version code. */
  function Current(rows: seq<Release>, app: string): (r: Option<Release>)
    ensures r.Some? ==> r.value in rows && Shown(r.value, app)
    ensures forall i :: 0 <= i < |rows| && Shown(rows[i], app) ==> r.Some? && rows[i].code <= r.value.code
  {
    if rows == [] then None
    else
      var init, last := rows[..|rows| - 1], rows[|rows| - 1];
      var r := Current(init, app);
      assert rows == init + [last];
      assert forall i :: 0 <= i < |init| ==> init[i] == rows[i];
      if Shown(last, app) && (r.None? || r.value.code <= last.code) then Some(last) else r
  }

  /** The gates in their order, and what they refuse. */
  function Gate(rows: seq<Release>, app: string, build: Build, packageId: string): Option<Refusal> {
    if !build.intact then Some(Corrupt)
    else if build.manifest.None? then Some(Unreadable)
    else if build.manifest.value.packageId != packageId then Some(WrongPackage)
    else if build.signer.Some? && DebugKey(build.signer.value) then Some(DebugSigned)
    else
      var code, current := build.manifest.value.code, Current(rows, app);
      if Has(rows, app, code) then Some(Duplicate)
      else if current.Some? && current.value.code >= code then Some(NotHigher)
      else None
  }

  /** `updateMany(published, but not `keep` → superseded)`. */
  function Demoted(rows: seq<Release>, app: string, keep: Option<nat>): (r: seq<Release>)
    ensures |r| == |rows|
    ensures forall i :: 0 <= i < |rows| ==> r[i] == DemotedRow(rows[i], app, keep)
  {
    seq(|rows|, i requires 0 <= i < |rows| => DemotedRow(rows[i], app, keep))
  }

  function DemotedRow(r: Release, app: string, keep: Option<nat>): Release {
    if Shown(r, app) && keep != Some(r.code) then r.(status := Superseded) else r
  }

  function Find(rows: seq<Release>, app: string, code: nat): (r: Option<nat>)
    ensures r.Some? <==> Has(rows, app, code)
    ensures r.Some? ==> r.value < |rows| && Live(rows[r.value], app) && rows[r.value].code == code
  {
    if rows == [] then None
    else
      var n := |rows| - 1;
      var r := Find(rows[..n], app, code);
      assert forall i :: 0 <= i < n ==> rows[..n][i] == rows[i];
      if r.Some? then r else if Live(rows[n], app) && rows[n].code == code then Some(n) else None
  }

  // ---------- One run ----------

  /** `commits`: the transaction is not rolled back. `survives`: the process lives to its second write. */
  datatype Run =
    | Publish(app: string, build: Build, dryRun: bool, commits: bool)
    | Promote(app: string, code: nat, dryRun: bool, survives: bool)

  /** The package id each app key must carry. */
  type Packages = string -> string

  function Released(rows: seq<Release>, app: string, code: nat): seq<Release> {
    Demoted(rows, app, None) + [Release(app, code, Published, false)]
  }

  function Promoted(rows: seq<Release>, i: nat): seq<Release>
    requires i < |rows|
  {
    rows[i := rows[i].(status := Published)]
  }

  /** The states of the collection that a run passes through, one after each committed write. */
  function States(rows: seq<Release>, run: Run, packages: Packages): seq<seq<Release>> {
    match run
    case Publish(app, build, dryRun, commits) =>
      if Gate(rows, app, build, packages(app)).Some? || dryRun || !commits then []
      else [Released(rows, app, build.manifest.value.code)]
    case Promote(app, code, dryRun, survives) =>
      var target := Find(rows, app, code);
      if target.None? || dryRun then []
      else
        var first := Demoted(rows, app, Some(code));
        if survives then [first, Promoted(first, target.value)] else [first]
  }

  /** The run got to its end and wrote. */
  predicate Completes(rows: seq<Release>, run: Run, packages: Packages) {
    match run
    case Publish(app, build, dryRun, commits) => Gate(rows, app, build, packages(app)).None? && !dryRun && commits
    case Promote(app, code, dryRun, survives) => Has(rows, app, code) && !dryRun && survives
  }

  function CodeOf(run: Run): Option<nat> {
    match run
    case Publish(_, build, _, _) => if build.manifest.Some? then Some(build.manifest.value.code) else None
    case Promote(_, code, _, _) => Some(code)
  }

  function After(rows: seq<Release>, run: Run, packages: Packages): seq<Release> {
    var states := States(rows, run, packages);
    if states == [] then rows else states[|states| - 1]
  }

  /** The script, its writes going to the collection one after the other. */
  class Releases {
    var rows: seq<Release>
    /** Every state the collection has been in since, oldest first. */
    ghost var passed: seq<seq<Release>>
    const packages: Packages

    constructor (rows: seq<Release>, packages: Packages)
      ensures this.rows == rows && this.packages == packages && passed == [rows]
    {
      this.rows := rows;
      this.packages := packages;
      passed := [rows];
    }

    method PublishBuild(app: string, build: Build, dryRun: bool, commits: bool) returns (refusal: Option<Refusal>)
      modifies this
      ensures refusal == Gate(old(rows), app, build, packages(app))
      ensures passed == old(passed) + States(old(rows), Publish(app, build, dryRun, commits), packages)
      ensures rows == After(old(rows), Publish(app, build, dryRun, commits), packages)
    {
      refusal := Gate(rows, app, build, packages(app));
      if refusal.Some? || dryRun { return; }
      // withTransaction: both writes, or neither
      var inSession := Demoted(rows, app, None);
      inSession := inSession + [Release(app, build.manifest.value.code, Published, false)];
      if commits {
        rows := inSession;
        passed := passed + [rows];
      }
    }

    method PromoteBuild(app: string, code: nat, dryRun: bool, survives: bool) returns (found: bool)
      modifies this
      ensures found == Has(old(rows), app, code)
      ensures passed == old(passed) + States(old(rows), Promote(app, code, dryRun, survives), packages)
      ensures rows == After(old(rows), Promote(app, code, dryRun, survives), packages)
    {
      var target := Find(rows, app, code);
      found := target.Some?;
      if target.None? || dryRun { return; }
      rows := Demoted(rows, app, Some(code));
      passed := passed + [rows];
      if !survives { return; }
      rows := rows[target.value := rows[target.value].(status := Published)];
      passed := passed + [rows];
    }
  }

  // ---------- What the gates refuse, and what a run writes ----------

  ghost predicate Includes(s: string, part: string) {
    exists a: string, b: string :: s == a + part + b
  }

  lemma ContainsIs(s: string, part: string)
    ensures Contains(s, part) <==> Includes(s, part)
  {
    if Contains(s, part) {
      var i: nat :| i <= |s| && OccursAt(s, part, i);
      assert s == s[..i] + part + s[i + |part|..];
    }
    if a: string, b: string :| s == a + part + b {
      assert s[|a|..|a| + |part|] == part;
      assert OccursAt(s, part, |a|);
    }
  }

  /** A live row of the app carries the code. */
  ghost predicate Taken(rows: seq<Release>, app: string, code: nat) {
    exists r :: r in rows && r.app == app && !r.deleted && r.code == code
  }

  /** A live published row of the app carries a code as high. */
  ghost predicate Reached(rows: seq<Release>, app: string, code: nat) {
    exists r :: r in rows && r.app == app && !r.deleted && r.status == Published && r.code >= code
  }

  lemma HasIs(rows: seq<Release>, app: string, code: nat)
    ensures Has(rows, app, code) <==> Taken(rows, app, code)
  {
    if r :| r in rows && r.app == app && !r.deleted && r.code == code {
      var i :| 0 <= i < |rows| && rows[i] == r;
      assert Live(rows[i], app);
    }
    if i :| 0 <= i < |rows| && Live(rows[i], app) && rows[i].code == code { assert rows[i] in rows; }
  }

  lemma ReachedIs(rows: seq<Release>, app: string, code: nat)
    ensures var current := Current(rows, app);
            (current.Some? && current.value.code >= code) <==> Reached(rows, app, code)
  {
    if r :| r in rows && r.app == app && !r.deleted && r.status == Published && r.code >= code {
      var i :| 0 <= i < |rows| && rows[i] == r;
      assert Shown(rows[i], app);
    }
  }

  /** Each refusal means what it says, the gates before it passed; without one the build passes all of them. */
  lemma GateExactly(rows: seq<Release>, app: string, build: Build, packageId: string)
    ensures var debug := build.signer.Some? && Includes(build.signer.value, "CN=Android Debug")
                         && Includes(build.signer.value, "O=Android");
            Gate(rows, app, build, packageId) ==
            if !build.intact then Some(Corrupt)
            else if build.manifest == None then Some(Unreadable)
            else if packageId != build.manifest.value.packageId then Some(WrongPackage)
            else if debug then Some(DebugSigned)
            else if Taken(rows, app, build.manifest.value.code) then Some(Duplicate)
            else if Reached(rows, app, build.manifest.value.code) then Some(NotHigher)
            else None
  {
    if build.signer.Some? {
      ContainsIs(build.signer.value, "CN=Android Debug");
      ContainsIs(build.signer.value, "O=Android");
    }
    hide Contains, Includes, Has, Taken, Current, Reached;
    if build.manifest.Some? {
      HasIs(rows, app, build.manifest.value.code);
      ReachedIs(rows, app, build.manifest.value.code);
    }
  }

  /** The row once the run is through: the release it makes current is published, every other live one of the app
      that was published is superseded, and nothing else about a row changes. */
  function RowAfter(r: Release, app: string, code: nat): Release {
    if r.app != app || r.deleted then r
    else if r.code == code then Release(app, code, Published, false)
    else Release(app, r.code, Superseded, false)
  }

  lemma PublishWrites(rows: seq<Release>, app: string, build: Build, packages: Packages)
    requires Gate(rows, app, build, packages(app)).None?
    ensures var after := After(rows, Publish(app, build, false, true), packages);
            var code := build.manifest.value.code;
            && |after| == |rows| + 1 && after[|rows|] == Release(app, code, Published, false)
            && forall i :: 0 <= i < |rows| ==> after[i] == RowAfter(rows[i], app, code)
  {
    var code := build.manifest.value.code;
    GateExactly(rows, app, build, packages(app));
    hide Gate, Reached, Includes;
    forall i | 0 <= i < |rows| && rows[i].app == app && !rows[i].deleted ensures rows[i].code != code {
      assert rows[i] in rows;
    }
  }

  lemma PromoteWrites(rows: seq<Release>, app: string, code: nat, packages: Packages)
    requires Sound(rows) && Taken(rows, app, code)
    ensures var after := After(rows, Promote(app, code, false, true), packages);
            |after| == |rows| && forall i :: 0 <= i < |rows| ==> after[i] == RowAfter(rows[i], app, code)
  {
    HasIs(rows, app, code);
    var t := Find(rows, app, code).value;
    forall i | 0 <= i < |rows| && i != t && rows[i].app == app && !rows[i].deleted ensures rows[i].code != code {
      assert Live(rows[t], app);
    }
  }

  /** A promotion of a build that is not there, a dry run and a refused build write nothing. */
  lemma NothingWritten(rows: seq<Release>, run: Run, packages: Packages)
    requires match run
             case Publish(app, build, dryRun, commits) =>
               Gate(rows, app, build, packages(app)).Some? || dryRun || !commits
             case Promote(app, code, dryRun, _) => !Taken(rows, app, code) || dryRun
    ensures States(rows, run, packages) == []
  {
    hide Gate;
    if run.Promote? { HasIs(rows, run.app, run.code); }
  }

  // ---------- What holds in every state ----------

  /** No version code twice in an app, and never two published releases of one. */
  predicate Sound(rows: seq<Release>) {
    forall i, j :: 0 <= i < j < |rows| && !rows[i].deleted && !rows[j].deleted && rows[i].app == rows[j].app ==>
      rows[i].code != rows[j].code && !(rows[i].status == Published && rows[j].status == Published)
  }

  lemma DemotedSound(rows: seq<Release>, app: string, keep: Option<nat>)
    requires Sound(rows)
    ensures Sound(Demoted(rows, app, keep))
  {
  }

  lemma ReleasedSound(rows: seq<Release>, app: string, code: nat)
    requires Sound(rows) && !Has(rows, app, code)
    ensures Sound(Released(rows, app, code))
  {
    DemotedSound(rows, app, None);
    var d := Demoted(rows, app, None);
    forall i | 0 <= i < |d| && Live(d[i], app) ensures d[i].code != code && d[i].status != Published {
      assert Live(rows[i], app);
    }
  }

  lemma PromotedSound(rows: seq<Release>, app: string, code: nat)
    requires Sound(rows) && Has(rows, app, code)
    ensures Sound(Promoted(Demoted(rows, app, Some(code)), Find(rows, app, code).value))
  {
    DemotedSound(rows, app, Some(code));
    var d, t := Demoted(rows, app, Some(code)), Find(rows, app, code).value;
    forall i | 0 <= i < |d| && i != t && Live(d[i], app) ensures d[i].code != code && d[i].status != Published {
      assert Live(rows[i], app) && Live(rows[t], app);
    }
  }

  lemma StatesSound(rows: seq<Release>, run: Run, packages: Packages)
    requires Sound(rows)
    ensures forall k :: 0 <= k < |States(rows, run, packages)| ==> Sound(States(rows, run, packages)[k])
  {
    hide Sound, Contains, Find;
    match run
    case Publish(app, build, _, _) =>
      if Gate(rows, app, build, packages(app)).None? { ReleasedSound(rows, app, build.manifest.value.code); }
    case Promote(app, code, _, _) =>
      DemotedSound(rows, app, Some(code));
      if Find(rows, app, code).Some? { PromotedSound(rows, app, code); }
  }

  /** All the states passed through, over any sequence of runs. */
  function History(rows: seq<Release>, runs: seq<Run>, packages: Packages): seq<seq<Release>>
    decreases |runs|
  {
    if runs == [] then []
    else States(rows, runs[0], packages) + History(After(rows, runs[0], packages), runs[1..], packages)
  }

  /** At no write of any run, whatever was interrupted before it, are two releases of an app published. */
  lemma {:induction false} NeverTwoPublished(rows: seq<Release>, runs: seq<Run>, packages: Packages, k: nat)
    requires Sound(rows) && k < |History(rows, runs, packages)|
    ensures Sound(History(rows, runs, packages)[k])
    decreases |runs|
  {
    hide Sound, States;
    StatesSound(rows, runs[0], packages);
    var states := States(rows, runs[0], packages);
    if k >= |states| { NeverTwoPublished(After(rows, runs[0], packages), runs[1..], packages, k - |states|); }
  }

  /** The app's only published row is the one with this code. */
  predicate ShowsOnly(rows: seq<Release>, app: string, code: nat) {
    && (exists i :: 0 <= i < |rows| && Shown(rows[i], app))
    && forall i :: 0 <= i < |rows| && Shown(rows[i], app) ==> rows[i].code == code
  }

  /** A run that gets to its end leaves exactly its own build published, and what it replaces is lower
      when it is a new one. */
  lemma CompletedRunShowsItsBuild(rows: seq<Release>, run: Run, packages: Packages)
    requires Sound(rows) && Completes(rows, run, packages)
    ensures Sound(After(rows, run, packages))
    ensures CodeOf(run).Some? && ShowsOnly(After(rows, run, packages), run.app, CodeOf(run).value)
    ensures run.Publish? ==> forall i :: 0 <= i < |rows| && Shown(rows[i], run.app) ==> rows[i].code < CodeOf(run).value
  {
    StatesSound(rows, run, packages);
    var after := After(rows, run, packages);
    match run
    case Publish(app, build, _, _) =>
      var code := build.manifest.value.code;
      assert after == Released(rows, app, code);
      assert Shown(after[|rows|], app);
    case Promote(app, code, _, _) =>
      var t := Find(rows, app, code).value;
      var first := Demoted(rows, app, Some(code));
      assert after == Promoted(first, t);
      assert Shown(after[t], app);
  }

  /** A promotion cut off between its writes leaves the app with a published release exactly when the
      one promoted was published already. */
  lemma InterruptedPromotion(rows: seq<Release>, app: string, code: nat, packages: Packages)
    requires Sound(rows) && Has(rows, app, code)
    ensures var after := After(rows, Promote(app, code, false, false), packages);
            Current(after, app).Some? <==> Shown(rows[Find(rows, app, code).value], app)
  {
    var t := Find(rows, app, code).value;
    var after := Demoted(rows, app, Some(code));
    assert After(rows, Promote(app, code, false, false), packages) == after;
    if Shown(rows[t], app) { assert Shown(after[t], app); }
    var current := Current(after, app);
    if current.Some? {
      var i :| 0 <= i < |after| && after[i] == current.value;
      assert Shown(rows[i], app) && rows[i].code == code && Live(rows[t], app);
      assert i == t;
    }
  }

  /** No run touches another app's rows. */
  lemma OtherAppsUntouched(rows: seq<Release>, run: Run, packages: Packages, i: nat)
    requires i < |rows| && rows[i].app != run.app
    ensures i < |After(rows, run, packages)| && After(rows, run, packages)[i] == rows[i]
  {
    hide Gate;
  }

  // ---------- What the version gate protects ----------

  /** A phone that took any release of the app so far can take this one. */
  predicate EveryoneCanTake(rows: seq<Release>, app: string, code: nat) {
    forall i :: 0 <= i < |rows| && Live(rows[i], app) ==> rows[i].code < code
  }

  /** Higher than the published build, if there is one. */
  predicate Above(rows: seq<Release>, app: string, code: nat) {
    Current(rows, app).None? || Current(rows, app).value.code < code
  }

  predicate GateAdmits(rows: seq<Release>, app: string, code: nat) {
    !Has(rows, app, code) && Above(rows, app, code)
  }

  /** The published version code; below every code when nothing is published. */
  function PublishedCode(rows: seq<Release>, app: string): int {
    match Current(rows, app)
    case None => -1
    case Some(r) => r.code
  }

  /** The codes of live releases that are higher than the published one. */
  function Higher(rows: seq<Release>, app: string): set<int> {
    set i | 0 <= i < |rows| && Live(rows[i], app) && rows[i].code > PublishedCode(rows, app) :: rows[i].code
  }

  predicate IsTop(codes: set<int>, top: int) {
    top in codes && forall c :: c in codes ==> c <= top
  }

  /** The published build is the highest there is. */
  predicate TopShown(rows: seq<Release>, app: string) {
    forall i :: 0 <= i < |rows| && Live(rows[i], app) ==>
      Current(rows, app).Some? && rows[i].code <= Current(rows, app).value.code
  }

  /** A promotion below some live release. */
  predicate RollsBack(rows: seq<Release>, run: Run, app: string) {
    run.Promote? && run.app == app && exists i :: 0 <= i < |rows| && Live(rows[i], app) && run.code < rows[i].code
  }

  predicate NeverRollsBack(rows: seq<Release>, runs: seq<Run>, packages: Packages, app: string)
    decreases |runs|
  {
    runs == [] ||
    (!RollsBack(rows, runs[0], app) && NeverRollsBack(After(rows, runs[0], packages), runs[1..], packages, app))
  }

  function AfterAll(rows: seq<Release>, runs: seq<Run>, packages: Packages): seq<Release>
    decreases |runs|
  {
    if runs == [] then rows else AfterAll(After(rows, runs[0], packages), runs[1..], packages)
  }

  lemma ReleasedTop(rows: seq<Release>, app: string, code: nat)
    requires TopShown(rows, app) && GateAdmits(rows, app, code)
    ensures EveryoneCanTake(rows, app, code) && TopShown(Released(rows, app, code), app)
  {
    var after := Released(rows, app, code);
    assert Shown(after[|rows|], app) && after[|rows|].code == code;
    forall i | 0 <= i < |rows| && Live(after[i], app) ensures after[i].code < code {
      assert Live(rows[i], app);
    }
  }

  /** Another app's run leaves this one's rows where they are and adds none to them. */
  lemma OtherRunKeepsTop(rows: seq<Release>, run: Run, packages: Packages, app: string)
    requires TopShown(rows, app) && run.app != app
    ensures TopShown(After(rows, run, packages), app)
  {
    hide States, After, Current;
    var after := After(rows, run, packages);
    OtherRunAddsNone(rows, run, packages, app);
    forall i | 0 <= i < |after| && Live(after[i], app)
      ensures Current(after, app).Some? && after[i].code <= Current(after, app).value.code
    {
      var k :| 0 <= k < |rows| && rows[k] == Current(rows, app).value;
      OtherAppsUntouched(rows, run, packages, k);
      assert Shown(after[k], app);
    }
  }

  lemma OtherRunAddsNone(rows: seq<Release>, run: Run, packages: Packages, app: string)
    requires run.app != app
    ensures var after := After(rows, run, packages);
            forall i :: 0 <= i < |after| && Live(after[i], app) ==> i < |rows| && after[i] == rows[i]
  {
    hide Gate;
  }

  /** Promoting the highest release keeps every row as it is, once the highest is the published one. */
  lemma PromoteKeepsTop(rows: seq<Release>, run: Run, packages: Packages)
    requires Sound(rows) && TopShown(rows, run.app) && run.Promote? && !RollsBack(rows, run, run.app)
    ensures After(rows, run, packages) == rows
  {
    var t := Find(rows, run.app, run.code);
    if t.Some? {
      var current := Current(rows, run.app).value;
      var k :| 0 <= k < |rows| && rows[k] == current;
      assert Live(rows[t.value], run.app) && Live(rows[k], run.app) && rows[k].code == run.code;
      assert k == t.value;
      var first := Demoted(rows, run.app, Some(run.code));
      forall i | 0 <= i < |rows| ensures first[i] == rows[i] {
        assert Shown(rows[i], run.app) ==> i == k;
      }
      assert first == rows;
      assert Promoted(rows, t.value) == rows;
    }
  }

  lemma RunKeepsTop(rows: seq<Release>, run: Run, packages: Packages, app: string)
    requires Sound(rows) && TopShown(rows, app) && !RollsBack(rows, run, app)
    ensures Sound(After(rows, run, packages)) && TopShown(After(rows, run, packages), app)
  {
    hide Sound, TopShown, Gate;
    StatesSound(rows, run, packages);
    if run.app != app {
      OtherRunKeepsTop(rows, run, packages, app);
    } else if run.Promote? {
      PromoteKeepsTop(rows, run, packages);
    } else if After(rows, run, packages) != rows {
      GateAdmitsWhatItPasses(rows, app, run.build, packages(app));
      ReleasedTop(rows, app, run.build.manifest.value.code);
    }
  }

  lemma GateAdmitsWhatItPasses(rows: seq<Release>, app: string, build: Build, packageId: string)
    requires Gate(rows, app, build, packageId).None?
    ensures build.manifest.Some? && GateAdmits(rows, app, build.manifest.value.code)
  {
  }

  /** Over any history of runs, interrupted or not, in which the app is never rolled back, every build
      that passes the gates is higher than every live one before it. */
  lemma {:induction false} PublishingOnlyGoesUp(rows: seq<Release>, runs: seq<Run>, packages: Packages, app: string,
                                                build: Build)
    requires Sound(rows) && TopShown(rows, app) && NeverRollsBack(rows, runs, packages, app)
    ensures var now := AfterAll(rows, runs, packages);
            && TopShown(now, app)
            && (Gate(now, app, build, packages(app)).None? ==> EveryoneCanTake(now, app, build.manifest.value.code))
    decreases |runs|
  {
    hide Sound, TopShown, Gate, EveryoneCanTake, After, RollsBack;
    if runs == [] {
      if Gate(rows, app, build, packages(app)).None? {
        GateAdmitsWhatItPasses(rows, app, build, packages(app));
        ReleasedTop(rows, app, build.manifest.value.code);
      }
    } else {
      RunKeepsTop(rows, runs[0], packages, app);
      PublishingOnlyGoesUp(After(rows, runs[0], packages), runs[1..], packages, app, build);
    }
  }

  /** After a rollback the gate lets in a build that phones on the withdrawn one cannot take. */
  lemma RollbackLetsALowerBuildIn(app: string)
    ensures var rows := [Release(app, 3, Published, false), Release(app, 5, Superseded, false)];
            Sound(rows) && GateAdmits(rows, app, 4) && !EveryoneCanTake(rows, app, 4)
  {
    var rows := [Release(app, 3, Published, false), Release(app, 5, Superseded, false)];
    var init := rows[..1];
    assert init == [rows[0]] && init[..0] == [];
    assert Current(init[..0], app) == None;
    assert Current(init, app) == Some(rows[0]);
    assert rows[..1] == init && Current(rows, app) == Some(rows[0]);
    assert Live(rows[1], app) && rows[1].code == 5;
  }

  lemma {:induction false} CodesBetween(low: int, high: int) returns (codes: set<int>)
    requires low <= high
    ensures (forall c :: c in codes <==> low < c <= high) && |codes| == high - low
    decreases high - low
  {
    if low == high {
      codes := {};
    } else {
      codes := CodesBetween(low, high - 1);
      codes := codes + {high};
    }
  }

  /** Codes above `low`, the highest of them `top`, number `top - low` exactly when none is missing. */
  lemma CountedExactly(codes: set<int>, low: int, top: int)
    requires IsTop(codes, top) && forall c :: c in codes ==> low < c
    ensures |codes| == top - low <==> forall c :: low < c <= top ==> c in codes
  {
    var all := CodesBetween(low, top);
    forall c: int | c in codes ensures c in all {
    }
    SubsetSize(codes, all);
    if forall c :: low < c <= top ==> c in codes { assert codes == all; }
  }

  lemma HasExactly(rows: seq<Release>, app: string, c: int)
    ensures c in Higher(rows, app) <==> c > PublishedCode(rows, app) && c >= 0 && Has(rows, app, c)
  {
  }

  /** Every build the gate admits suits every phone exactly when no live release is above the published
      one, or the live codes above it, up to the highest, are as many as fit in between. */
  lemma GateProtectsExactly(rows: seq<Release>, app: string, top: int)
    requires Higher(rows, app) != {} ==> IsTop(Higher(rows, app), top)
    ensures (forall code: nat :: GateAdmits(rows, app, code) ==> EveryoneCanTake(rows, app, code))
            <==> Higher(rows, app) == {} || |Higher(rows, app)| == top - PublishedCode(rows, app)
  {
    var higher, low := Higher(rows, app), PublishedCode(rows, app);
    forall c: nat ensures c in higher <==> c > low && Has(rows, app, c) {
      HasExactly(rows, app, c);
    }
    forall i | 0 <= i < |rows| && Live(rows[i], app) ensures rows[i].code <= low || rows[i].code in higher {
    }
    forall c: nat ensures GateAdmits(rows, app, c) <==> c > low && c !in higher {
    }
    if higher != {} {
      CountedExactly(higher, low, top);
      if c :| low < c <= top && c !in higher {
        var code: nat := c;
        assert GateAdmits(rows, app, code);
        var i :| 0 <= i < |rows| && Live(rows[i], app) && rows[i].code == top;
        assert !EveryoneCanTake(rows, app, code);
      }
    }
  }
}
