/** The vendor-email migration: build the partial unique index, then drop the plain one it replaces,
    while clients keep writing. */
module EmailIndexSwap {
  import opened Options
  import opened UniqueGuard

  const LEGACY_NAME := "email_1"
  const TARGET_NAME := "vendor_email_unique_when_set"
  const TARGET_FILTER := "{\"email\":{\"$type\":\"string\"}}"

  /** An index as the server lists it; the partial filter as its JSON text. */
  datatype Index = Index(key: seq<(string, int)>, unique: bool, sparse: bool, partialFilter: Option<string>)

  const TARGET := Index([("email", 1)], true, false, Some(TARGET_FILTER))

  predicate IsEmailKey(ix: Index) {
    ix.key == [("email", 1)]
  }

  /** The plain unique index the old declaration built, precisely. */
  predicate IsLegacyEmailIndex(name: string, ix: Index) {
    name == LEGACY_NAME && IsEmailKey(ix) && ix.unique && !ix.sparse && ix.partialFilter == None
  }

  predicate IsTarget(ix: Index) {
    IsEmailKey(ix) && ix.unique && ix.partialFilter == Some(TARGET_FILTER)
  }

  /** What an index enforces of the vendors; anything else is taken to enforce nothing. */
  function ShapeOf(ix: Index): Shape {
    if !IsEmailKey(ix) || !ix.unique then Other
    else if ix.partialFilter == None then (if ix.sparse then Partial else Full)
    else if ix.partialFilter == Some(TARGET_FILTER) then Partial
    else Other
  }

  /** A vendor's email; missing counts as null in a plain index. */
  type Vendor = d: Doc<Option<string>> | d.marked <==> d.key.Some? witness Doc(None, false)

  /** What an index accepts: a unique one on the email alone refuses two vendors with one, and two without
      one where it is neither sparse nor partial; an index that is partial in another way is taken to accept all. */
  lemma AcceptsExactly(ix: Index, vendors: seq<Vendor>)
    ensures Holds(ShapeOf(ix), vendors) <==>
            (ix.key == [("email", 1)] && ix.unique
             && (ix.partialFilter == None || ix.partialFilter == Some("{\"email\":{\"$type\":\"string\"}}")) ==>
               forall j, k :: 0 <= j < k < |vendors| && vendors[j].key == vendors[k].key ==>
                 vendors[j].key == None && (ix.sparse || ix.partialFilter.Some?))
  {
    assert TARGET_FILTER == "{\"email\":{\"$type\":\"string\"}}";
    hide TARGET_FILTER;
  }

  datatype Db = Db(vendors: seq<Vendor>, indexes: map<string, Index>)

  ghost predicate Consistent(db: Db) {
    forall name :: name in db.indexes ==> Holds(ShapeOf(db.indexes[name]), db.vendors)
  }

  // ---------- The run, interleaved with writers ----------

  datatype Stage =
    | Start
    | Building(existing: map<string, Index>)
    | Dropping(existing: map<string, Index>, targetInPlace: bool)
    | Finished

  datatype State = State(db: Db, stage: Stage, built: nat, dropped: nat, failed: nat)

  /** Any write of any client that every index accepts, or that no index sees. */
  ghost predicate ClientStep(s: State, s': State) {
    s' == s.(db := s.db.(vendors := s'.db.vendors)) && Consistent(s'.db)
  }

  predicate ReadStep(s: State, s': State) {
    s.stage.Start? && s' == s.(stage := Building(s.db.indexes))
  }

  /** Building succeeds only on vendors the new index holds of, and may fail for any reason. */
  predicate BuildStep(dryRun: bool, s: State, s': State) {
    && s.stage.Building?
    && var existing := s.stage.existing;
       if exists name :: name in existing && IsTarget(existing[name]) then
         s' == s.(stage := Dropping(existing, true))
       else if dryRun then
         s' == s.(stage := Dropping(existing, false))
       else
         || (&& Holds(ShapeOf(TARGET), s.db.vendors)
             && (TARGET_NAME in s.db.indexes ==> s.db.indexes[TARGET_NAME] == TARGET)
             && s' == s.(stage := Dropping(existing, true), built := s.built + 1,
                         db := s.db.(indexes := s.db.indexes[TARGET_NAME := TARGET])))
         || s' == s.(stage := Dropping(existing, false), failed := s.failed + 1)
  }

  predicate DropStep(dryRun: bool, s: State, s': State) {
    && s.stage.Dropping?
    && var existing := s.stage.existing;
       if LEGACY_NAME !in existing then
         s' == s.(stage := Finished)
       else if !IsLegacyEmailIndex(LEGACY_NAME, existing[LEGACY_NAME]) then
         s' == s.(stage := Finished, failed := s.failed + 1)
       else if dryRun || !s.stage.targetInPlace then
         s' == s.(stage := Finished)
       else
         || s' == s.(stage := Finished, dropped := s.dropped + 1, db := s.db.(indexes := s.db.indexes - {LEGACY_NAME}))
         || s' == s.(stage := Finished, failed := s.failed + 1)
  }

  ghost predicate Next(dryRun: bool, s: State, s': State) {
    ClientStep(s, s') || ReadStep(s, s') || BuildStep(dryRun, s, s') || DropStep(dryRun, s, s')
  }

  predicate Guarded(indexes: map<string, Index>) {
    exists name :: name in indexes && (IsTarget(indexes[name]) || IsLegacyEmailIndex(name, indexes[name]))
  }

  ghost predicate Init(s: State) {
    s.stage.Start? && s.built == s.dropped == s.failed == 0 && Consistent(s.db)
  }

  ghost predicate Run(dryRun: bool, states: seq<State>) {
    && states != [] && Init(states[0])
    && forall i :: 0 <= i < |states| - 1 ==> Next(dryRun, states[i], states[i + 1])
  }

  // ---------- Uniqueness never lapses ----------

  /** A partial index under another name than the one that may be dropped. */
  predicate Replaced(indexes: map<string, Index>) {
    exists name :: name in indexes && name != LEGACY_NAME && IsTarget(indexes[name])
  }

  predicate HasLegacy(indexes: map<string, Index>) {
    LEGACY_NAME in indexes && IsLegacyEmailIndex(LEGACY_NAME, indexes[LEGACY_NAME])
  }

  /** Two guards may overlap, never give way: the plain index goes only once its replacement stands. */
  ghost predicate Inv(s: State) {
    && Consistent(s.db) && Guarded(s.db.indexes)
    && (s.stage.Building? ==> s.stage.existing == s.db.indexes)
    && (s.stage.Dropping? ==>
          && (LEGACY_NAME in s.stage.existing <==> LEGACY_NAME in s.db.indexes)
          && (LEGACY_NAME in s.stage.existing ==> s.db.indexes[LEGACY_NAME] == s.stage.existing[LEGACY_NAME])
          && (s.stage.targetInPlace && HasLegacy(s.stage.existing) ==> Replaced(s.db.indexes)))
  }

  lemma InvStep(dryRun: bool, s: State, s': State)
    requires Inv(s) && Next(dryRun, s, s')
    ensures Inv(s')
  {
    if BuildStep(dryRun, s, s') {
      var g :| g in s.db.indexes && (IsTarget(s.db.indexes[g]) || IsLegacyEmailIndex(g, s.db.indexes[g]));
      if s'.built > s.built {
        assert IsTarget(s'.db.indexes[TARGET_NAME]);
      }
    } else if DropStep(dryRun, s, s') {
      if s'.dropped > s.dropped {
        var t :| t in s.db.indexes && t != LEGACY_NAME && IsTarget(s.db.indexes[t]);
        assert t in s'.db.indexes;
      }
    }
  }

  /** If one guard is in place at the start, no reachable state has two vendors with one string email,
      whatever clients write in between and whichever builds and drops fail. */
  lemma {:induction false} UniquenessNeverLapses(dryRun: bool, states: seq<State>, i: nat)
    requires Run(dryRun, states) && Guarded(states[0].db.indexes)
    requires i < |states|
    ensures Inv(states[i])
    ensures var vendors := states[i].db.vendors;
            forall j, k :: 0 <= j < k < |vendors| && vendors[j].key.Some? ==> vendors[j].key != vendors[k].key
  {
    if i > 0 {
      UniquenessNeverLapses(dryRun, states, i - 1);
      assert Next(dryRun, states[i - 1], states[i - 1 + 1]);
      InvStep(dryRun, states[i - 1], states[i]);
    }
    var s := states[i];
    var g :| g in s.db.indexes && (IsTarget(s.db.indexes[g]) || IsLegacyEmailIndex(g, s.db.indexes[g]));
    assert Holds(ShapeOf(s.db.indexes[g]), s.db.vendors);
  }

  // ---------- What a successful run achieves ----------

  /** Every index but the one called `email_1` lets in any number of vendors without an email. */
  predicate OnlyLegacyRefuses(indexes: map<string, Index>) {
    forall name :: name in indexes && name != LEGACY_NAME ==> ShapeOf(indexes[name]) != Full
  }

  ghost predicate DoneInv(s: State) {
    && OnlyLegacyRefuses(s.db.indexes)
    && (s.stage.Building? ==> s.stage.existing == s.db.indexes)
    && (s.stage.Dropping? ==>
          && (LEGACY_NAME in s.stage.existing <==> LEGACY_NAME in s.db.indexes)
          && (s.failed == 0 ==> s.stage.targetInPlace))
    && (s.stage.Finished? && s.failed == 0 ==> LEGACY_NAME !in s.db.indexes)
  }

  lemma {:induction false} DoneReached(states: seq<State>, i: nat)
    requires Run(false, states) && OnlyLegacyRefuses(states[0].db.indexes) && i < |states|
    ensures DoneInv(states[i])
  {
    if i > 0 {
      DoneReached(states, i - 1);
      assert Next(false, states[i - 1], states[i - 1 + 1]);
    }
  }

  /** The server never holds vendors that one of its indexes refuses. */
  lemma {:induction false} ConsistentThroughout(dryRun: bool, states: seq<State>, i: nat)
    requires Run(dryRun, states) && i < |states|
    ensures Consistent(states[i].db)
  {
    if i > 0 {
      ConsistentThroughout(dryRun, states, i - 1);
      assert Next(dryRun, states[i - 1], states[i - 1 + 1]);
    }
  }

  /** After a run without a problem, a vendor without an email is accepted beside any number of others. */
  lemma EmailLessVendorsAccepted(states: seq<State>, more: seq<Vendor>)
    requires Run(false, states)
    requires var indexes := states[0].db.indexes;
             forall name :: name in indexes && name != "email_1" ==> ShapeOf(indexes[name]) != Full
    requires states[|states| - 1].stage.Finished? && states[|states| - 1].failed == 0
    requires forall v :: v in more ==> v.key == None
    ensures var db := states[|states| - 1].db; Consistent(db.(vendors := db.vendors + more))
  {
    var db := states[|states| - 1].db;
    DoneReached(states, |states| - 1);
    ConsistentThroughout(false, states, |states| - 1);
    var all := db.vendors + more;
    forall name | name in db.indexes ensures Holds(ShapeOf(db.indexes[name]), all) {
      assert Holds(ShapeOf(db.indexes[name]), db.vendors);
      assert forall i :: |db.vendors| <= i < |all| ==> all[i] in more;
    }
  }

  /** While the plain index stands, a second vendor without an email is refused. */
  lemma LegacyRefusesTheSecond(db: Db, i: nat, j: nat)
    requires LEGACY_NAME in db.indexes && IsLegacyEmailIndex(LEGACY_NAME, db.indexes[LEGACY_NAME])
    requires i < j < |db.vendors| && db.vendors[i].key == None == db.vendors[j].key
    ensures !Consistent(db)
  {
    assert !Holds(ShapeOf(db.indexes[LEGACY_NAME]), db.vendors);
  }

  // ---------- What a run does to the indexes ----------

  /** Some index keeps string emails apart already. */
  ghost predicate HasTarget(indexes: map<string, Index>) {
    exists name :: name in indexes && SetsApart(indexes[name])
  }

  ghost predicate SetsApart(ix: Index) {
    ix.key == [("email", 1)] && ix.unique && ix.partialFilter == Some("{\"email\":{\"$type\":\"string\"}}")
  }

  /** What the migration calls `email_1` is the plain index and no other of that name. */
  ghost predicate HasPlain(indexes: map<string, Index>) {
    "email_1" in indexes && indexes["email_1"] == Index([("email", 1)], true, false, None)
  }

  /** The indexes after `built` builds and `dropped` drops. */
  ghost function Swapped(indexes: map<string, Index>, built: nat, dropped: nat): map<string, Index> {
    (if built == 0 then indexes
     else indexes["vendor_email_unique_when_set" :=
                  Index([("email", 1)], true, false, Some("{\"email\":{\"$type\":\"string\"}}"))])
    - (if dropped == 0 then {} else {"email_1"})
  }

  ghost predicate Progress(dryRun: bool, before: map<string, Index>, s: State) {
    && s.db.indexes == Swapped(before, s.built, s.dropped)
    && (s.stage.Building? ==> s.stage.existing == before)
    && (s.stage.Dropping? ==> s.stage.existing == before)
    && match s.stage
       case Start => s.built == s.dropped == s.failed == 0
       case Building(_) => s.built == s.dropped == s.failed == 0
       case Dropping(_, inPlace) =>
         && s.dropped == 0 && (inPlace <==> HasTarget(before) || s.built == 1)
         && BuildOutcome(dryRun, before, s)
       case Finished => s.dropped <= 1 && BuildOutcome(dryRun, before, s) && DropOutcome(dryRun, before, s)
  }

  /** One is built only where none is found, and always there unless something fails. */
  ghost predicate BuildOutcome(dryRun: bool, before: map<string, Index>, s: State) {
    && s.built <= 1 && (s.built == 1 ==> !dryRun && !HasTarget(before))
    && (!dryRun && s.failed == 0 ==> s.built == 1 || HasTarget(before))
    && (s.stage.Dropping? && s.failed > 0 ==> !dryRun && s.built == 0)
  }

  /** Only the plain index is dropped, only behind a target, and always then unless something fails. */
  ghost predicate DropOutcome(dryRun: bool, before: map<string, Index>, s: State) {
    && (s.dropped == 1 ==> !dryRun && HasPlain(before) && (HasTarget(before) || s.built == 1))
    && (!dryRun && s.failed == 0 ==> (s.dropped == 1 <==> "email_1" in before))
    && ("email_1" in before && !HasPlain(before) ==> s.failed > 0)
    && (dryRun && s.failed > 0 ==> "email_1" in before && !HasPlain(before))
  }

  lemma ProgressStep(dryRun: bool, before: map<string, Index>, s: State, s': State)
    requires Progress(dryRun, before, s) && Next(dryRun, s, s')
    ensures Progress(dryRun, before, s')
  {
    hide Consistent, Holds;
    if ReadStep(s, s') {
    } else if BuildStep(dryRun, s, s') {
      TargetExactly(before);
    } else if DropStep(dryRun, s, s') {
      PlainExactly(before);
    }
  }

  lemma TargetExactly(indexes: map<string, Index>)
    ensures HasTarget(indexes) <==> exists name :: name in indexes && IsTarget(indexes[name])
  {
    forall name | name in indexes ensures IsTarget(indexes[name]) <==> SetsApart(indexes[name]) {
    }
  }

  lemma PlainExactly(indexes: map<string, Index>)
    ensures HasPlain(indexes) <==> HasLegacy(indexes)
  {
  }

  /** Whatever clients write in between, a finished run has built the target exactly where none was found and
      dropped the plain index exactly where it stood, as far as nothing failed; a dry run changes no index. */
  lemma {:induction false} RunExactly(dryRun: bool, states: seq<State>, i: nat)
    requires Run(dryRun, states) && i < |states|
    ensures Progress(dryRun, states[0].db.indexes, states[i])
    ensures dryRun ==> states[i].db.indexes == states[0].db.indexes
  {
    hide Next;
    if i > 0 {
      RunExactly(dryRun, states, i - 1);
      assert Next(dryRun, states[i - 1], states[i - 1 + 1]);
      ProgressStep(dryRun, states[0].db.indexes, states[i - 1], states[i]);
    }
  }
}
