/** The review migration's index swap: the same build-then-drop, decided by index names alone, in a
    script that stops at the first failure. */
module ReviewIndexSwap {
  import opened UniqueGuard

  const OLD_INDEX := "review_one_per_author_per_subject"
  const NEW_INDEX := "review_one_live_per_author_per_subject"

  /** A review's subject and author; marked while it is not deleted. */
  type Review = Doc<(string, string)>

  datatype Db = Db(reviews: seq<Review>, indexes: map<string, Shape>)

  ghost predicate Consistent(db: Db) {
    forall name :: name in db.indexes ==> Holds(db.indexes[name], db.reviews)
  }

  datatype Stage = Start | Building(hasNew: bool, hasOld: bool) | Dropping(hasOld: bool) | Swapped | Aborted

  datatype State = State(db: Db, stage: Stage)

  ghost predicate ClientStep(s: State, s': State) {
    s' == s.(db := s.db.(reviews := s'.db.reviews)) && Consistent(s'.db)
  }

  predicate ReadStep(dryRun: bool, s: State, s': State) {
    && s.stage.Start?
    && s' == s.(stage := if dryRun then Aborted else Building(NEW_INDEX in s.db.indexes, OLD_INDEX in s.db.indexes))
  }

  predicate BuildStep(s: State, s': State) {
    && s.stage.Building?
    && if s.stage.hasNew then s' == s.(stage := Dropping(s.stage.hasOld))
       else
         || (Holds(Partial, s.db.reviews)
             && s' == s.(stage := Dropping(s.stage.hasOld), db := s.db.(indexes := s.db.indexes[NEW_INDEX := Partial])))
         || s' == s.(stage := Aborted)
  }

  predicate DropStep(s: State, s': State) {
    && s.stage.Dropping?
    && if !s.stage.hasOld then s' == s.(stage := Swapped)
       else
         || s' == s.(stage := Swapped, db := s.db.(indexes := s.db.indexes - {OLD_INDEX}))
         || s' == s.(stage := Aborted)
  }

  ghost predicate Next(dryRun: bool, s: State, s': State) {
    ClientStep(s, s') || ReadStep(dryRun, s, s') || BuildStep(s, s') || DropStep(s, s')
  }

  ghost predicate Run(dryRun: bool, states: seq<State>) {
    && states != [] && states[0].stage.Start? && Consistent(states[0].db)
    && forall i :: 0 <= i < |states| - 1 ==> Next(dryRun, states[i], states[i + 1])
  }

  // ---------- When the rule holds throughout ----------

  /** An index that outlives the swap enforces the rule, or the old one does until the new one is built. */
  predicate Protected(indexes: map<string, Shape>) {
    || (exists name :: name in indexes && name != OLD_INDEX && indexes[name] != Other)
    || (NEW_INDEX !in indexes && OLD_INDEX in indexes && indexes[OLD_INDEX] != Other)
  }

  ghost predicate Inv(s: State) {
    && Consistent(s.db)
    && Protected(s.db.indexes)
    && (s.stage.Building? ==> s.stage.hasNew == (NEW_INDEX in s.db.indexes))
    && (s.stage.Dropping? ==> NEW_INDEX in s.db.indexes)
  }

  lemma ProtectedRule(db: Db)
    requires Consistent(db) && Protected(db.indexes)
    ensures OneLive(db.reviews)
  {
    var name :| name in db.indexes && db.indexes[name] != Other;
    assert Holds(db.indexes[name], db.reviews);
  }

  lemma InvStep(dryRun: bool, s: State, s': State)
    requires Inv(s) && Next(dryRun, s, s')
    ensures Inv(s')
  {
    if s.stage.Building? && s'.db.indexes != s.db.indexes {
      assert s'.db.indexes[NEW_INDEX] != Other;
    } else if s.stage.Dropping? && s'.db.indexes != s.db.indexes {
      var name :| name in s.db.indexes && name != OLD_INDEX && s.db.indexes[name] != Other;
      assert name in s'.db.indexes;
    }
  }

  lemma {:induction false} InvThroughout(dryRun: bool, states: seq<State>, i: nat)
    requires Run(dryRun, states) && Protected(states[0].db.indexes) && i < |states|
    ensures Inv(states[i])
  {
    if i > 0 {
      InvThroughout(dryRun, states, i - 1);
      assert Next(dryRun, states[i - 1], states[i - 1 + 1]);
      InvStep(dryRun, states[i - 1], states[i]);
    }
  }

  /** The indexes a run leaves, which accept the reviews there are, are the ones it found, with the new one beside
      them once it was built, and without the old one once the swap is through; a dry run changes none. */
  lemma {:induction false} SwapExactly(dryRun: bool, states: seq<State>, i: nat)
    requires Run(dryRun, states) && i < |states|
    ensures var before, s := states[0].db.indexes, states[i];
            var with := if "review_one_live_per_author_per_subject" in before then before
                        else before["review_one_live_per_author_per_subject" := Partial];
            match s.stage
            case Start => s.db.indexes == before
            case Building(hasNew, hasOld) =>
              && !dryRun && s.db.indexes == before
              && (hasNew <==> "review_one_live_per_author_per_subject" in before)
              && (hasOld <==> "review_one_per_author_per_subject" in before)
            case Dropping(hasOld) =>
              !dryRun && s.db.indexes == with && (hasOld <==> "review_one_per_author_per_subject" in before)
            case Swapped => !dryRun && s.db.indexes == with - {"review_one_per_author_per_subject"}
            case Aborted =>
              if dryRun then s.db.indexes == before
              else
                || (s.db.indexes == before && "review_one_live_per_author_per_subject" !in before)
                || (s.db.indexes == with && "review_one_per_author_per_subject" in before)
    ensures Consistent(states[i].db)
  {
    hide Holds;
    if i > 0 {
      SwapExactly(dryRun, states, i - 1);
      assert Next(dryRun, states[i - 1], states[i - 1 + 1]);
    }
  }

  ghost predicate NeverTwoLive(db: Db) {
    forall states: seq<State>, i: nat :: Run(false, states) && states[0].db == db && i < |states| ==>
      OneLive(states[i].db.reviews)
  }

  /** No two live reviews are of one subject by one author. */
  ghost predicate OneLive(reviews: seq<Review>) {
    forall j, k :: 0 <= j < k < |reviews| && reviews[j].marked && reviews[k].marked ==>
      reviews[j].key != reviews[k].key
  }

  function Twice(): seq<Review> {
    [Doc(("subject", "author"), true), Doc(("subject", "author"), true)]
  }

  lemma TwiceLive()
    ensures !OneLive(Twice())
  {
    assert Twice()[0].key == Twice()[1].key;
  }

  lemma Lapsed(db: Db, states: seq<State>, i: nat)
    requires Run(false, states) && states[0].db == db && i < |states| && states[i].db.reviews == Twice()
    ensures !NeverTwoLive(db)
  {
    hide Run, Twice;
    TwiceLive();
    assert !OneLive(states[i].db.reviews);
  }

  /** Before the swap, where nothing protects the rule and the new name is free, a client writes the second one. */
  lemma FreeNameLapses(db: Db)
    requires Consistent(db) && !Protected(db.indexes) && NEW_INDEX !in db.indexes
    ensures !NeverTwoLive(db)
  {
    var s0, s1 := State(db, Start), State(db.(reviews := Twice()), Start);
    assert ClientStep(s0, s1);
    hide ClientStep, Protected;
    Lapsed(db, [s0, s1], 1);
  }

  /** Where the new name is taken, the swap drops the old index and a client writes the second one. */
  lemma TakenNameLapses(db: Db)
    requires Consistent(db) && !Protected(db.indexes) && NEW_INDEX in db.indexes
    ensures !NeverTwoLive(db)
  {
    var hasOld := OLD_INDEX in db.indexes;
    var s0 := State(db, Start);
    var s1 := s0.(stage := Building(true, hasOld));
    var s2 := s0.(stage := Dropping(hasOld));
    var s3 := State(db.(indexes := db.indexes - {OLD_INDEX}), Swapped);
    var s4 := State(Db(Twice(), s3.db.indexes), Swapped);
    assert !hasOld ==> s3.db.indexes == db.indexes;
    assert ReadStep(false, s0, s1) && BuildStep(s1, s2) && DropStep(s2, s3) && ClientStep(s3, s4);
    hide ReadStep, BuildStep, DropStep, ClientStep, Protected, Consistent;
    Lapsed(db, [s0, s1, s2, s3, s4], 4);
  }

  /** Unprotected, some run ends with two live reviews of one subject by one author. */
  lemma UnprotectedLapses(db: Db)
    requires Consistent(db) && !Protected(db.indexes)
    ensures !NeverTwoLive(db)
  {
    hide Consistent, Protected, NeverTwoLive;
    if NEW_INDEX in db.indexes { TakenNameLapses(db); } else { FreeNameLapses(db); }
  }

  /** An author never has two live reviews of one subject, at any point of any run under any writers,
      exactly when the collection is protected at the start. Names alone do not protect it: the script
      drops the old index for anything that bears the new one's name. */
  lemma OneLiveReviewExactly(db: Db)
    requires Consistent(db)
    ensures NeverTwoLive(db) <==> Protected(db.indexes)
  {
    if Protected(db.indexes) {
      forall states: seq<State>, i: nat | Run(false, states) && states[0].db == db && i < |states|
        ensures OneLive(states[i].db.reviews)
      {
        InvThroughout(false, states, i);
        ProtectedRule(states[i].db);
      }
    } else {
      UnprotectedLapses(db);
    }
  }
}
