/** Submitting message templates: list what the account holds, create what is missing, edit what differs,
    under whatever the Graph API answers, over any number of runs. */
module TemplateSubmission {
  import opened Options

  datatype Key = Key(name: string, language: string)

  /** `shape` is what a person sees of the template: its body and its buttons. */
  datatype Payload = Payload(key: Key, category: string, shape: string)

  datatype ReviewStatus = Approved | Pending | InAppeal | Rejected

  datatype Template = Template(status: ReviewStatus, shape: string)

  type Account = map<Key, Template>

  // ---------- Listing ----------

  /** One page of the listing, or the error that ends the run. */
  datatype Page = Page(templates: seq<(Key, Template)>) | PageFailed

  /** The rows of all pages, in the order they are read. */
  function RowsOf(pages: seq<Page>): seq<(Key, Template)> {
    if pages == [] then []
    else RowsOf(pages[..|pages| - 1]) + if pages[|pages| - 1].Page? then pages[|pages| - 1].templates else []
  }

  /** A later row of a key replaces an earlier one. */
  function Latest(rows: seq<(Key, Template)>): Account {
    if rows == [] then map[] else Latest(rows[..|rows| - 1])[rows[|rows| - 1].0 := rows[|rows| - 1].1]
  }

  /** What the pages hold, read one after the other; the first failed page ends it. */
  method ExistingTemplates(pages: seq<Page>) returns (r: Result<Account, nat>)
    ensures r.Err? ==> r.error < |pages| && pages[r.error].PageFailed? && forall p :: p in pages[..r.error] ==> p.Page?
    ensures r.Ok? ==> (forall p :: p in pages ==> p.Page?) && r.value == Latest(RowsOf(pages))
  {
    hide Latest, RowsOf;
    var keys: Account := map[];
    NothingListed(pages);
    for i := 0 to |pages|
      invariant forall p :: p in pages[..i] ==> p.Page?
      invariant keys == Latest(RowsOf(pages[..i]))
    {
      if pages[i].PageFailed? { return Err(i); }
      PageListed(pages, i);
      var rows := pages[i].templates;
      ghost var before := RowsOf(pages[..i]);
      assert before + rows[..0] == before;
      for j := 0 to |rows|
        invariant keys == Latest(before + rows[..j])
      {
        RowListed(before, rows, j);
        keys := keys[rows[j].0 := rows[j].1];
      }
      assert rows[..|rows|] == rows;
    }
    assert pages[..|pages|] == pages;
    return Ok(keys);
  }

  lemma NothingListed(pages: seq<Page>)
    ensures Latest(RowsOf(pages[..0])) == map[]
  {
  }

  lemma PageListed(pages: seq<Page>, i: nat)
    requires i < |pages| && pages[i].Page?
    ensures RowsOf(pages[..i + 1]) == RowsOf(pages[..i]) + pages[i].templates
  {
    assert pages[..i + 1][..i] == pages[..i];
  }

  lemma RowListed(before: seq<(Key, Template)>, rows: seq<(Key, Template)>, j: nat)
    requires j < |rows|
    ensures Latest(before + rows[..j + 1]) == Latest(before + rows[..j])[rows[j].0 := rows[j].1]
  {
    assert (before + rows[..j + 1])[..|before| + j] == before + rows[..j];
  }

  /** The account listed has exactly the keys of the rows, each with what its last row says. */
  lemma {:induction false} LatestExactly(rows: seq<(Key, Template)>, k: Key)
    ensures k in Latest(rows) <==> exists i :: 0 <= i < |rows| && rows[i].0 == k
    ensures k in Latest(rows) ==>
              exists i :: 0 <= i < |rows| && rows[i] == (k, Latest(rows)[k])
                          && forall j :: i < j < |rows| ==> rows[j].0 != k
  {
    if rows != [] {
      var n := |rows| - 1;
      LatestExactly(rows[..n], k);
      if rows[n].0 == k {
        assert rows[n] == (k, Latest(rows)[k]);
      } else if k in Latest(rows[..n]) {
        var i :| 0 <= i < n && rows[..n][i] == (k, Latest(rows[..n])[k])
                 && forall j :: i < j < n ==> rows[..n][j].0 != k;
        assert rows[i] == (k, Latest(rows)[k]);
        assert forall j :: i < j < |rows| ==> rows[j].0 != k by {
          forall j | i < j < |rows| ensures rows[j].0 != k {
            assert j < n ==> rows[j] == rows[..n][j];
          }
        }
      }
    }
  }

  // ---------- One write, tried up to five times ----------

  datatype Reply = Ok200 | OkEmpty | Throttled | Fatal | BadPayload | NoAnswer

  /** The API's answer to a write, and what it really did: a write it did not confirm may still have been
      stored, with the review status it then has. */
  datatype Call = Call(reply: Reply, stored: bool, status: ReviewStatus)

  /** The answers, one for each write ever sent. */
  type Server = nat -> Call

  datatype Outcome = Made | Refused | StillThrottled | Thrown

  const ATTEMPTS := 5

  /** What comes of a write whose first try is the `t`-th ever sent, and how many tries it takes. */
  function Attempts(server: Server, t: nat, attempt: nat): (r: (Outcome, nat))
    requires attempt <= ATTEMPTS
    ensures r.1 <= ATTEMPTS - attempt
    decreases ATTEMPTS - attempt
  {
    if attempt == ATTEMPTS then (StillThrottled, 0)
    else
      match server(t).reply
      case Ok200 => (Made, 1)
      case Fatal => (Thrown, 1)
      case NoAnswer => (Thrown, 1)
      case Throttled => var (o, n) := Attempts(server, t + 1, attempt + 1); (o, n + 1)
      case _ => (Refused, 1)
  }

  datatype Write = Create(key: Key) | Edit(key: Key)

  function Repeat(w: Write, n: nat): (r: seq<Write>)
    ensures |r| == n && forall i :: 0 <= i < n ==> r[i] == w
  {
    if n == 0 then [] else Repeat(w, n - 1) + [w]
  }

  function WriteOf(p: Payload, edit: bool): Write {
    if edit then Edit(p.key) else Create(p.key)
  }

  /** The account after one try. */
  function Stored(live: Account, call: Call, p: Payload): Account {
    if call.reply == Ok200 || call.stored then live[p.key := Template(call.status, p.shape)] else live
  }

  /** The account after `n` tries, the first of them the `t`-th write ever sent. */
  function StoredAll(live: Account, server: Server, t: nat, n: nat, p: Payload): Account {
    if n == 0 then live else Stored(StoredAll(live, server, t, n - 1, p), server(t + n - 1), p)
  }

  /** The account, everything ever sent to it, and whether the run was thrown out. */
  datatype State = State(live: Account, sent: seq<Write>, thrown: bool)

  /** After `n` tries of one write. */
  function Tried(s: State, p: Payload, edit: bool, server: Server, n: nat): (r: State)
    ensures !r.thrown && |r.sent| == |s.sent| + n
  {
    State(StoredAll(s.live, server, |s.sent|, n, p), s.sent + Repeat(WriteOf(p, edit), n), false)
  }

  function Written(s: State, p: Payload, edit: bool, server: Server): State {
    if s.thrown then s
    else
      var (o, n) := Attempts(server, |s.sent|, 0);
      Tried(s, p, edit, server, n).(thrown := o == Thrown)
  }

  function WrittenAll(s: State, ps: seq<Payload>, edit: bool, server: Server): State {
    if ps == [] then s else Written(WrittenAll(s, ps[..|ps| - 1], edit, server), ps[|ps| - 1], edit, server)
  }

  // ---------- What a run selects ----------

  const NEVER_SUBMIT: set<string> := {"wi_mall_phone_verification_utility"}

  datatype Flags = Flags(only: Option<set<string>>, limit: int, submit: bool, edit: bool)

  predicate IsChosen(p: Payload, only: Option<set<string>>) {
    (only.None? || p.key.name in only.value) && p.key.name !in NEVER_SUBMIT
  }

  function Chosen(ps: seq<Payload>, only: Option<set<string>>): seq<Payload> {
    if ps == [] then [] else Chosen(ps[..|ps| - 1], only) + if IsChosen(ps[|ps| - 1], only) then [ps[|ps| - 1]] else []
  }

  function Missing(ps: seq<Payload>, listed: Account): seq<Payload> {
    if ps == [] then []
    else Missing(ps[..|ps| - 1], listed) + if ps[|ps| - 1].key !in listed then [ps[|ps| - 1]] else []
  }

  function Present(ps: seq<Payload>, listed: Account): seq<Payload> {
    if ps == [] then [] else Present(ps[..|ps| - 1], listed) + if ps[|ps| - 1].key in listed then [ps[|ps| - 1]] else []
  }

  /** Differs from what the account shows, is not in review, and is not compiled by Meta. */
  predicate MayEdit(p: Payload, listed: Account) {
    && p.key in listed && listed[p.key].shape != p.shape
    && listed[p.key].status != Pending && listed[p.key].status != InAppeal && p.category != "AUTHENTICATION"
  }

  function Editable(ps: seq<Payload>, listed: Account): seq<Payload> {
    if ps == [] then []
    else Editable(ps[..|ps| - 1], listed) + if MayEdit(ps[|ps| - 1], listed) then [ps[|ps| - 1]] else []
  }

  function Limited(ps: seq<Payload>, limit: int): seq<Payload> {
    if 0 < limit < |ps| then ps[..limit] else ps
  }

  function Todo(ps: seq<Payload>, flags: Flags, listed: Account): seq<Payload> {
    Limited(Missing(Chosen(ps, flags.only), listed), flags.limit)
  }

  function Edits(ps: seq<Payload>, flags: Flags, listed: Account): seq<Payload> {
    Limited(Editable(Chosen(ps, flags.only), listed), flags.limit)
  }

  /** What a run leaves behind. */
  function AfterRun(s: State, ps: seq<Payload>, flags: Flags, server: Server): State {
    if !flags.submit then s
    else
      var created := WrittenAll(s, Todo(ps, flags, s.live), false, server);
      if created.thrown || !flags.edit then created else WrittenAll(created, Edits(ps, flags, s.live), true, server)
  }

  datatype RowStatus = Created | Edited | Exists | Failed

  datatype Row = Row(key: Key, status: RowStatus)

  function OutcomeOf(s: State, server: Server): Outcome {
    Attempts(server, |s.sent|, 0).0
  }

  /** The row a write is reported in. */
  function RowOf(s: State, p: Payload, edit: bool, server: Server): Row {
    Row(p.key, if OutcomeOf(s, server) != Made then Failed else if edit then Edited else Created)
  }

  /** The report once the writes are through: a create adds its row, an edit's takes its template's place. */
  function RowsAfter(s: State, rows: seq<Row>, ps: seq<Payload>, edit: bool, server: Server): seq<Row> {
    if ps == [] then rows
    else
      var init, p := ps[..|ps| - 1], ps[|ps| - 1];
      var before := RowsAfter(s, rows, init, edit, server);
      var row := RowOf(WrittenAll(s, init, edit, server), p, edit, server);
      if edit then Replaced(before, row) else before + [row]
  }

  /** What a run reports. */
  function Report(s: State, ps: seq<Payload>, flags: Flags, server: Server): seq<Row> {
    var todo := Todo(ps, flags, s.live);
    var rows := RowsAfter(s, ExistingRows(Present(Chosen(ps, flags.only), s.live)), todo, false, server);
    if !flags.edit then rows
    else RowsAfter(WrittenAll(s, todo, false, server), rows, Edits(ps, flags, s.live), true, server)
  }

  function RowKeys(rows: seq<Row>): (r: seq<Key>)
    ensures |r| == |rows| && forall i :: 0 <= i < |r| ==> r[i] == rows[i].key
  {
    seq(|rows|, i requires 0 <= i < |rows| => rows[i].key)
  }

  /** What is already there is reported as such. */
  function ExistingRows(ps: seq<Payload>): (r: seq<Row>)
    ensures |r| == |ps| && forall i :: 0 <= i < |r| ==> r[i] == Row(ps[i].key, Exists)
  {
    seq(|ps|, i requires 0 <= i < |ps| => Row(ps[i].key, Exists))
  }

  function KeysOf(ps: seq<Payload>): (r: seq<Key>)
    ensures |r| == |ps| && forall i :: 0 <= i < |r| ==> r[i] == ps[i].key
  {
    RowKeys(ExistingRows(ps))
  }

  class Submission {
    var live: Account
    var sent: seq<Write>
    const server: Server

    constructor (live: Account, server: Server)
      ensures this.live == live && this.server == server && sent == []
    {
      this.live := live;
      this.server := server;
      sent := [];
    }

    /** Create, or edit. */
    method CreateTemplate(p: Payload, edit: bool) returns (o: Outcome)
      modifies this
      ensures State(live, sent, o == Thrown) == Written(State(old(live), old(sent), false), p, edit, server)
      ensures o == Attempts(server, |old(sent)|, 0).0
    {
      hide Tried, Attempts, Stored, WriteOf;
      ghost var s := State(live, sent, false);
      var attempt := 0;
      NotTried(s, p, edit, server);
      while attempt < ATTEMPTS
        invariant attempt <= ATTEMPTS
        invariant State(live, sent, false) == Tried(s, p, edit, server, attempt)
        invariant Attempts(server, |s.sent|, 0) == Later(Attempts(server, |s.sent| + attempt, attempt), attempt)
      {
        TryStep(s, p, edit, server, attempt);
        AttemptStep(server, |s.sent| + attempt, attempt);
        var call := server(|sent|);
        sent := sent + [WriteOf(p, edit)];
        live := Stored(live, call, p);
        if call.reply == Ok200 { return Made; }
        if call.reply == Fatal || call.reply == NoAnswer { return Thrown; }
        if call.reply != Throttled { return Refused; }
        attempt := attempt + 1;
      }
      AttemptsOver(server, |s.sent| + attempt);
      return StillThrottled;
    }

    method Run(ps: seq<Payload>, flags: Flags) returns (r: Result<seq<Row>, ()>)
      modifies this
      ensures State(live, sent, r.Err?) == AfterRun(State(old(live), old(sent), false), ps, flags, server)
      ensures r.Ok? && flags.submit ==>
                var chosen := Chosen(ps, flags.only);
                && r.value == Report(State(old(live), old(sent), false), ps, flags, server)
                && multiset(RowKeys(r.value)) ==
                   multiset(KeysOf(Present(chosen, old(live)))) + multiset(KeysOf(Todo(ps, flags, old(live))))
    {
      hide WrittenAll, Written, Chosen, Missing, Present, Editable, Limited, IsChosen, KeysOf, RowKeys, RowsAfter;
      var listed := live;
      var chosen := Chosen(ps, flags.only);
      if !flags.submit { return Ok([]); }
      ghost var s := State(live, sent, false);
      var results := ExistingRows(Present(chosen, listed));
      assert RowKeys(results) == KeysOf(Present(chosen, listed)) by { ExistingKeys(Present(chosen, listed)); }
      var todo := Todo(ps, flags, listed);
      r := SendCreates(todo, results);
      if r.Ok? && flags.edit {
        var edits := Edits(ps, flags, listed);
        EditsArePresent(chosen, flags.limit, listed, RowKeys(r.value));
        r := SendEdits(edits, r.value);
      }
    }

    method SendCreates(todo: seq<Payload>, rows: seq<Row>) returns (r: Result<seq<Row>, ()>)
      modifies this
      ensures State(live, sent, r.Err?) == WrittenAll(State(old(live), old(sent), false), todo, false, server)
      ensures r.Ok? ==> r.value == RowsAfter(State(old(live), old(sent), false), rows, todo, false, server)
      ensures r.Ok? ==> multiset(RowKeys(r.value)) == multiset(RowKeys(rows)) + multiset(KeysOf(todo))
    {
      hide WrittenAll, Written, KeysOf, RowKeys, RowsAfter, Attempts;
      ghost var s := State(live, sent, false);
      var results := rows;
      NoneWritten(s, todo, false, server);
      NoRows(s, rows, todo, false, server);
      NoKeys(todo, rows);
      for i := 0 to |todo|
        invariant State(live, sent, false) == WrittenAll(s, todo[..i], false, server)
        invariant results == RowsAfter(s, rows, todo[..i], false, server)
        invariant multiset(RowKeys(results)) == multiset(RowKeys(rows)) + multiset(KeysOf(todo[..i]))
      {
        WrittenStep(s, todo, i, false, server);
        RowsStep(s, rows, todo, i, false, server);
        var o := CreateTemplate(todo[i], false);
        if o == Thrown {
          ThrownStays(s, todo, i + 1, false, server);
          return Err(());
        }
        var row := Row(todo[i].key, if o == Made then Created else Failed);
        KeysStep(todo, i, results, row);
        results := results + [row];
      }
      assert todo[..|todo|] == todo;
      return Ok(results);
    }

    /** The edits; each takes the place of its template's row in the results. */
    method SendEdits(edits: seq<Payload>, rows: seq<Row>) returns (r: Result<seq<Row>, ()>)
      modifies this
      ensures State(live, sent, r.Err?) == WrittenAll(State(old(live), old(sent), false), edits, true, server)
      ensures r.Ok? ==> r.value == RowsAfter(State(old(live), old(sent), false), rows, edits, true, server)
      ensures r.Ok? && AllReported(edits, RowKeys(rows)) ==> multiset(RowKeys(r.value)) == multiset(RowKeys(rows))
    {
      hide WrittenAll, Written, KeysOf, RowKeys, AllReported, RowsAfter, Attempts, Replaced;
      ghost var s := State(live, sent, false);
      var results := rows;
      NoneWritten(s, edits, true, server);
      NoRows(s, rows, edits, true, server);
      for i := 0 to |edits|
        invariant State(live, sent, false) == WrittenAll(s, edits[..i], true, server)
        invariant results == RowsAfter(s, rows, edits[..i], true, server)
        invariant AllReported(edits, RowKeys(rows)) ==> multiset(RowKeys(results)) == multiset(RowKeys(rows))
      {
        WrittenStep(s, edits, i, true, server);
        RowsStep(s, rows, edits, i, true, server);
        var o := CreateTemplate(edits[i], true);
        if o == Thrown {
          ThrownStays(s, edits, i + 1, true, server);
          return Err(());
        }
        var row := Row(edits[i].key, if o == Made then Edited else Failed);
        if AllReported(edits, RowKeys(rows)) { ReplacedKeys(edits, i, rows, results, row); }
        results := Replaced(results, row);
      }
      assert edits[..|edits|] == edits;
      return Ok(results);
    }
  }

  function Later(r: (Outcome, nat), n: nat): (Outcome, nat) {
    (r.0, r.1 + n)
  }

  lemma NotTried(s: State, p: Payload, edit: bool, server: Server)
    requires !s.thrown
    ensures Tried(s, p, edit, server, 0) == s
    ensures Attempts(server, |s.sent|, 0) == Later(Attempts(server, |s.sent| + 0, 0), 0)
  {
    assert s.sent + Repeat(WriteOf(p, edit), 0) == s.sent;
  }

  lemma TryStep(s: State, p: Payload, edit: bool, server: Server, n: nat)
    ensures var before := Tried(s, p, edit, server, n);
            Tried(s, p, edit, server, n + 1)
            == State(Stored(before.live, server(|before.sent|), p), before.sent + [WriteOf(p, edit)], false)
  {
    hide Stored, WriteOf;
    var a, b := s.sent, Repeat(WriteOf(p, edit), n);
    assert a + (b + [WriteOf(p, edit)]) == (a + b) + [WriteOf(p, edit)];
  }

  lemma AttemptStep(server: Server, t: nat, attempt: nat)
    requires attempt < ATTEMPTS
    ensures Attempts(server, t, attempt) ==
            match server(t).reply
            case Ok200 => (Made, 1)
            case Fatal => (Thrown, 1)
            case NoAnswer => (Thrown, 1)
            case Throttled => Later(Attempts(server, t + 1, attempt + 1), 1)
            case _ => (Refused, 1)
  {
  }

  lemma AttemptsOver(server: Server, t: nat)
    ensures Attempts(server, t, ATTEMPTS) == (StillThrottled, 0)
  {
  }

  lemma NoneWritten(s: State, ps: seq<Payload>, edit: bool, server: Server)
    ensures WrittenAll(s, ps[..0], edit, server) == s
  {
  }

  lemma WrittenStep(s: State, ps: seq<Payload>, i: nat, edit: bool, server: Server)
    requires i < |ps|
    ensures WrittenAll(s, ps[..i + 1], edit, server)
            == Written(WrittenAll(s, ps[..i], edit, server), ps[i], edit, server)
  {
    hide Written;
    assert ps[..i + 1][..i] == ps[..i];
  }

  lemma NoRows(s: State, rows: seq<Row>, ps: seq<Payload>, edit: bool, server: Server)
    ensures RowsAfter(s, rows, ps[..0], edit, server) == rows
  {
  }

  lemma RowsStep(s: State, rows: seq<Row>, ps: seq<Payload>, i: nat, edit: bool, server: Server)
    requires i < |ps|
    ensures var before := RowsAfter(s, rows, ps[..i], edit, server);
            var row := RowOf(WrittenAll(s, ps[..i], edit, server), ps[i], edit, server);
            RowsAfter(s, rows, ps[..i + 1], edit, server) == if edit then Replaced(before, row) else before + [row]
  {
    hide WrittenAll, RowOf, Replaced;
    assert ps[..i + 1][..i] == ps[..i];
  }

  lemma ExistingKeys(ps: seq<Payload>)
    ensures RowKeys(ExistingRows(ps)) == KeysOf(ps)
  {
  }

  lemma NoKeys(ps: seq<Payload>, rows: seq<Row>)
    ensures multiset(RowKeys(rows)) == multiset(RowKeys(rows)) + multiset(KeysOf(ps[..0]))
  {
    assert KeysOf(ps[..0]) == [];
  }

  lemma KeysStep(ps: seq<Payload>, i: nat, rows: seq<Row>, row: Row)
    requires i < |ps| && row.key == ps[i].key
    ensures multiset(KeysOf(ps[..i + 1])) == multiset(KeysOf(ps[..i])) + multiset{row.key}
    ensures multiset(RowKeys(rows + [row])) == multiset(RowKeys(rows)) + multiset{row.key}
  {
    assert KeysOf(ps[..i + 1]) == KeysOf(ps[..i]) + [row.key];
    assert RowKeys(rows + [row]) == RowKeys(rows) + [row.key];
  }

  predicate AllReported(ps: seq<Payload>, keys: seq<Key>) {
    forall i :: 0 <= i < |ps| ==> ps[i].key in multiset(keys)
  }

  /** The edited template has a row already, so its new row takes that one's place. */
  lemma ReplacedKeys(ps: seq<Payload>, i: nat, rows: seq<Row>, results: seq<Row>, row: Row)
    requires i < |ps| && row.key == ps[i].key && AllReported(ps, RowKeys(rows))
    requires multiset(RowKeys(results)) == multiset(RowKeys(rows))
    ensures multiset(RowKeys(Replaced(results, row))) == multiset(RowKeys(rows))
  {
    hide RowKeys;
    assert row.key in multiset(RowKeys(results));
    Reported(results, row.key);
    var at := FirstRow(results, row.key);
    var a, b := results[..at], results[at + 1..];
    assert results == a + ([results[at]] + b);
    RowKeysConcat(a, [results[at]] + b);
    RowKeysConcat([results[at]], b);
    RowKeysConcat(a, b);
    RowKeysConcat(a + b, [row]);
    OneRow(results[at]);
    OneRow(row);
  }

  lemma RowKeysConcat(a: seq<Row>, b: seq<Row>)
    ensures multiset(RowKeys(a + b)) == multiset(RowKeys(a)) + multiset(RowKeys(b))
  {
    assert RowKeys(a + b) == RowKeys(a) + RowKeys(b);
  }

  lemma OneRow(row: Row)
    ensures multiset(RowKeys([row])) == multiset{row.key}
  {
    assert RowKeys([row]) == [row.key];
  }

  lemma Reported(rows: seq<Row>, key: Key)
    requires key in multiset(RowKeys(rows))
    ensures FirstRow(rows, key) < |rows|
  {
    var j :| 0 <= j < |RowKeys(rows)| && RowKeys(rows)[j] == key;
  }

  lemma {:induction false} EditableIsPresent(ps: seq<Payload>, listed: Account, i: nat)
    requires i < |Editable(ps, listed)|
    ensures Editable(ps, listed)[i].key in KeysOf(Present(ps, listed))
  {
    var init, last := ps[..|ps| - 1], ps[|ps| - 1];
    var n := |Present(ps, listed)|;
    if i < |Editable(init, listed)| {
      EditableIsPresent(init, listed, i);
      var j :| 0 <= j < |KeysOf(Present(init, listed))|
               && KeysOf(Present(init, listed))[j] == Editable(ps, listed)[i].key;
      assert KeysOf(Present(ps, listed))[j] == Editable(ps, listed)[i].key;
    } else {
      assert KeysOf(Present(ps, listed))[n - 1] == last.key;
    }
  }

  lemma EditsArePresent(ps: seq<Payload>, limit: int, listed: Account, keys: seq<Key>)
    ensures multiset(KeysOf(Present(ps, listed))) <= multiset(keys) ==>
              AllReported(Limited(Editable(ps, listed), limit), keys)
  {
    hide Editable, Present;
    if multiset(KeysOf(Present(ps, listed))) <= multiset(keys) {
      var edits := Limited(Editable(ps, listed), limit);
      forall i | 0 <= i < |edits| ensures edits[i].key in multiset(keys) {
        EditableIsPresent(ps, listed, i);
        assert edits[i].key in multiset(KeysOf(Present(ps, listed)));
      }
    }
  }

  /** `findIndex`, `splice`, `push`. */
  function Replaced(rows: seq<Row>, row: Row): seq<Row> {
    var at := FirstRow(rows, row.key);
    (if at < |rows| then rows[..at] + rows[at + 1..] else rows) + [row]
  }

  function FirstRow(rows: seq<Row>, key: Key): (at: nat)
    ensures at <= |rows| && (at < |rows| ==> rows[at].key == key)
    ensures forall i :: 0 <= i < at ==> rows[i].key != key
  {
    if rows == [] || rows[0].key == key then 0 else FirstRow(rows[1..], key) + 1
  }

  lemma {:induction false} ThrownStays(s: State, ps: seq<Payload>, n: nat, edit: bool, server: Server)
    requires n <= |ps| && WrittenAll(s, ps[..n], edit, server).thrown
    ensures WrittenAll(s, ps, edit, server) == WrittenAll(s, ps[..n], edit, server)
    decreases |ps| - n
  {
    if n < |ps| {
      assert ps[..n + 1][..n] == ps[..n];
      ThrownStays(s, ps, n + 1, edit, server);
    } else {
      assert ps[..n] == ps;
    }
  }

  // ---------- What a run may send ----------

  /** A create is of a chosen key the account did not hold, an edit of one it may edit. */
  predicate Allowed(w: Write, chosen: seq<Payload>, listed: Account) {
    exists i :: 0 <= i < |chosen| && w.key == chosen[i].key &&
      if w.Create? then w.key !in listed else MayEdit(chosen[i], listed)
  }

  /** So are all the writes sent from the `n`-th on. */
  predicate AllowedFrom(sent: seq<Write>, n: nat, chosen: seq<Payload>, listed: Account) {
    forall i :: n <= i < |sent| ==> Allowed(sent[i], chosen, listed)
  }

  lemma {:induction false} ChosenIn(ps: seq<Payload>, only: Option<set<string>>, p: Payload)
    ensures p in Chosen(ps, only) <==> p in ps && IsChosen(p, only)
  {
    if ps != [] {
      ChosenIn(ps[..|ps| - 1], only, p);
      assert ps == ps[..|ps| - 1] + [ps[|ps| - 1]];
    }
  }

  lemma {:induction false} MissingIn(ps: seq<Payload>, listed: Account, p: Payload)
    ensures p in Missing(ps, listed) <==> p in ps && p.key !in listed
  {
    if ps != [] {
      MissingIn(ps[..|ps| - 1], listed, p);
      assert ps == ps[..|ps| - 1] + [ps[|ps| - 1]];
    }
  }

  lemma {:induction false} EditableIn(ps: seq<Payload>, listed: Account, p: Payload)
    ensures p in Editable(ps, listed) <==> p in ps && MayEdit(p, listed)
  {
    if ps != [] {
      EditableIn(ps[..|ps| - 1], listed, p);
      assert ps == ps[..|ps| - 1] + [ps[|ps| - 1]];
    }
  }

  lemma LimitedIn(ps: seq<Payload>, limit: int, p: Payload)
    requires p in Limited(ps, limit)
    ensures p in ps
  {
  }

  /** Whatever writes were sent before are still there, and the new ones are all of the given payloads. */
  predicate SentFor(s: State, after: State, ps: seq<Payload>, edit: bool) {
    && s.sent <= after.sent
    && forall i :: |s.sent| <= i < |after.sent| ==> exists j :: 0 <= j < |ps| && after.sent[i] == WriteOf(ps[j], edit)
  }

  lemma {:induction false} WritesAreTheirs(s: State, ps: seq<Payload>, edit: bool, server: Server)
    ensures SentFor(s, WrittenAll(s, ps, edit, server), ps, edit)
  {
    if ps != [] {
      var init := ps[..|ps| - 1];
      WritesAreTheirs(s, init, edit, server);
      WriteIsIts(WrittenAll(s, init, edit, server), ps[|ps| - 1], edit, server);
      hide Written, WrittenAll;
      WrittenStep(s, ps, |ps| - 1, edit, server);
      assert ps[..|ps|] == ps;
      var before, after := WrittenAll(s, init, edit, server), WrittenAll(s, ps, edit, server);
      forall i | |s.sent| <= i < |after.sent|
        ensures exists j :: 0 <= j < |ps| && after.sent[i] == WriteOf(ps[j], edit)
      {
        if i < |before.sent| {
          assert after.sent[i] == before.sent[i];
          var j :| 0 <= j < |init| && before.sent[i] == WriteOf(init[j], edit);
          assert ps[j] == init[j];
        }
      }
    }
  }

  lemma WriteIsIts(s: State, p: Payload, edit: bool, server: Server)
    ensures var after := Written(s, p, edit, server);
            && s.sent <= after.sent && |after.sent| <= |s.sent| + ATTEMPTS
            && forall i :: |s.sent| <= i < |after.sent| ==> after.sent[i] == WriteOf(p, edit)
  {
  }

  /** Every write a run sends is allowed: no create of a key already there or of a name never to be sent,
      no edit of a template in review or of an authentication template. */
  lemma RunSendsOnlyAllowed(s: State, ps: seq<Payload>, flags: Flags, server: Server)
    requires !s.thrown
    ensures var after := AfterRun(s, ps, flags, server);
            && s.sent <= after.sent
            && AllowedFrom(after.sent, |s.sent|, Chosen(ps, flags.only), s.live)
  {
    hide WrittenAll, Chosen, Todo, Edits, Allowed, AllowedFrom, SentFor;
    NothingNew(s, Chosen(ps, flags.only), s.live);
    if flags.submit {
      var chosen := Chosen(ps, flags.only);
      var todo, edits := Todo(ps, flags, s.live), Edits(ps, flags, s.live);
      var created := WrittenAll(s, todo, false, server);
      WritesAreTheirs(s, todo, false, server);
      forall p | p in todo ensures Allowed(WriteOf(p, false), chosen, s.live) { TodoAllowed(ps, flags, s.live, p); }
      TheirsAllowed(s, created, todo, false, chosen, s.live);
      if !created.thrown && flags.edit {
        var after := WrittenAll(created, edits, true, server);
        WritesAreTheirs(created, edits, true, server);
        forall p | p in edits ensures Allowed(WriteOf(p, true), chosen, s.live) { EditAllowed(ps, flags, s.live, p); }
        TheirsAllowed(created, after, edits, true, chosen, s.live);
        AllowedOnwards(s.sent, created.sent, after.sent, chosen, s.live);
      }
    }
  }

  lemma NothingNew(s: State, chosen: seq<Payload>, listed: Account)
    ensures AllowedFrom(s.sent, |s.sent|, chosen, listed)
  {
  }

  lemma TheirsAllowed(s: State, after: State, ps: seq<Payload>, edit: bool, chosen: seq<Payload>, listed: Account)
    requires SentFor(s, after, ps, edit) && forall p :: p in ps ==> Allowed(WriteOf(p, edit), chosen, listed)
    ensures s.sent <= after.sent && AllowedFrom(after.sent, |s.sent|, chosen, listed)
  {
    hide Allowed, WriteOf;
    forall i | |s.sent| <= i < |after.sent| ensures Allowed(after.sent[i], chosen, listed) {
      var j :| 0 <= j < |ps| && after.sent[i] == WriteOf(ps[j], edit);
      assert ps[j] in ps;
    }
  }

  lemma AllowedOnwards(start: seq<Write>, middle: seq<Write>, end: seq<Write>, chosen: seq<Payload>, listed: Account)
    requires start <= middle <= end
    requires AllowedFrom(middle, |start|, chosen, listed) && AllowedFrom(end, |middle|, chosen, listed)
    ensures start <= end && AllowedFrom(end, |start|, chosen, listed)
  {
    hide Allowed;
    forall i | |start| <= i < |end| ensures Allowed(end[i], chosen, listed) {
      if i < |middle| { assert end[i] == middle[i]; }
    }
  }

  lemma TodoAllowed(ps: seq<Payload>, flags: Flags, listed: Account, p: Payload)
    requires p in Todo(ps, flags, listed)
    ensures Allowed(Create(p.key), Chosen(ps, flags.only), listed)
  {
    var chosen := Chosen(ps, flags.only);
    LimitedIn(Missing(chosen, listed), flags.limit, p);
    MissingIn(chosen, listed, p);
    hide Chosen, Missing, MayEdit;
    var i :| 0 <= i < |chosen| && chosen[i] == p;
  }

  lemma EditAllowed(ps: seq<Payload>, flags: Flags, listed: Account, p: Payload)
    requires p in Edits(ps, flags, listed)
    ensures Allowed(Edit(p.key), Chosen(ps, flags.only), listed)
  {
    var chosen := Chosen(ps, flags.only);
    LimitedIn(Editable(chosen, listed), flags.limit, p);
    EditableIn(chosen, listed, p);
    hide Chosen, Editable, MayEdit;
    var i :| 0 <= i < |chosen| && chosen[i] == p;
  }

  /** What `Allowed` comes to for the payloads as given. */
  lemma AllowedMeans(ps: seq<Payload>, flags: Flags, listed: Account, w: Write)
    requires Allowed(w, Chosen(ps, flags.only), listed)
    ensures exists p :: p in ps && p.key == w.key && w.key.name !in NEVER_SUBMIT
              && (flags.only.Some? ==> w.key.name in flags.only.value)
              && if w.Create? then w.key !in listed
                 else w.key in listed && listed[w.key].status !in {Pending, InAppeal} && p.category != "AUTHENTICATION"
                      && listed[w.key].shape != p.shape
  {
    var chosen := Chosen(ps, flags.only);
    var i :| 0 <= i < |chosen| && w.key == chosen[i].key
             && if w.Create? then w.key !in listed else MayEdit(chosen[i], listed);
    ChosenIn(ps, flags.only, chosen[i]);
  }

  // ---------- What a run takes up ----------

  /** Those that `wanted` picks, in their order. */
  function Filtered(ps: seq<Payload>, wanted: Payload -> bool): seq<Payload> {
    if ps == [] then [] else (if wanted(ps[0]) then [ps[0]] else []) + Filtered(ps[1..], wanted)
  }

  lemma FilteredFirst(ps: seq<Payload>, wanted: Payload -> bool)
    requires ps != []
    ensures Filtered(ps, wanted) == (if wanted(ps[0]) then [ps[0]] else []) + Filtered(ps[1..], wanted)
  {
  }

  lemma FilteredNothing(wanted: Payload -> bool)
    ensures Filtered([], wanted) == []
  {
  }

  lemma {:induction false} FilteredSnoc(ps: seq<Payload>, p: Payload, wanted: Payload -> bool)
    ensures Filtered(ps + [p], wanted) == Filtered(ps, wanted) + if wanted(p) then [p] else []
  {
    hide Filtered;
    FilteredFirst(ps + [p], wanted);
    FilteredNothing(wanted);
    if ps == [] {
      assert [] + [p] == [p] && [p][1..] == [];
    } else {
      FilteredFirst(ps, wanted);
      assert (ps + [p])[1..] == ps[1..] + [p];
      FilteredSnoc(ps[1..], p, wanted);
    }
  }

  lemma FilteredLast(ps: seq<Payload>, wanted: Payload -> bool)
    requires ps != []
    ensures var n := |ps| - 1;
            Filtered(ps, wanted) == Filtered(ps[..n], wanted) + if wanted(ps[n]) then [ps[n]] else []
  {
    var n := |ps| - 1;
    assert ps == ps[..n] + [ps[n]];
    FilteredSnoc(ps[..n], ps[n], wanted);
  }

  lemma ChosenStep(ps: seq<Payload>, only: Option<set<string>>)
    requires ps != []
    ensures var n := |ps| - 1;
            Chosen(ps, only) == Chosen(ps[..n], only) + if IsChosen(ps[n], only) then [ps[n]] else []
  {
  }

  lemma {:induction false} MissingStep(ps: seq<Payload>, p: Payload, listed: Account)
    ensures Missing(ps + [p], listed) == Missing(ps, listed) + if p.key !in listed then [p] else []
    ensures Present(ps + [p], listed) == Present(ps, listed) + if p.key in listed then [p] else []
    ensures Editable(ps + [p], listed) == Editable(ps, listed) + if MayEdit(p, listed) then [p] else []
  {
    assert (ps + [p])[..|ps|] == ps;
  }

  /** A name that the run is not kept to others, and that Meta has not refused for good. */
  ghost predicate Sendable(p: Payload, only: Option<set<string>>) {
    (only.Some? ==> p.key.name in only.value) && p.key.name != "wi_mall_phone_verification_utility"
  }

  ghost function Unlisted(only: Option<set<string>>, listed: Account): Payload -> bool {
    (p: Payload) => Sendable(p, only) && p.key !in listed
  }

  ghost function Listed(only: Option<set<string>>, listed: Account): Payload -> bool {
    (p: Payload) => Sendable(p, only) && p.key in listed
  }

  ghost function ShownOtherwise(only: Option<set<string>>, listed: Account): Payload -> bool {
    (p: Payload) =>
      Sendable(p, only) && p.key in listed && listed[p.key].shape != p.shape
      && listed[p.key].status !in {Pending, InAppeal} && p.category != "AUTHENTICATION"
  }

  lemma {:induction false} TakenUpIs(ps: seq<Payload>, only: Option<set<string>>, listed: Account)
    ensures var chosen := Chosen(ps, only);
            && Missing(chosen, listed) == Filtered(ps, Unlisted(only, listed))
            && Present(chosen, listed) == Filtered(ps, Listed(only, listed))
            && Editable(chosen, listed) == Filtered(ps, ShownOtherwise(only, listed))
  {
    if ps != [] {
      var n := |ps| - 1;
      TakenUpIs(ps[..n], only, listed);
      ChosenStep(ps, only);
      MissingStep(Chosen(ps[..n], only), ps[n], listed);
      assert IsChosen(ps[n], only) <==> Sendable(ps[n], only);
      hide Chosen, Missing, Present, Editable, Filtered, Sendable, IsChosen;
      var chosen := Chosen(ps[..n], only);
      assert chosen + [] == chosen;
      FilteredLast(ps, Unlisted(only, listed));
      FilteredLast(ps, Listed(only, listed));
      FilteredLast(ps, ShownOtherwise(only, listed));
    }
  }

  /** A limit above zero keeps the first so many, any other keeps all. */
  ghost function Kept(ps: seq<Payload>, limit: int): seq<Payload> {
    if limit >= 1 && limit < |ps| then ps[..limit] else ps
  }

  /** To be created are the payloads the account does not list; to be edited those it shows otherwise, is not
      reviewing and did not compile itself; the rest is reported as there. */
  lemma TakenUpExactly(ps: seq<Payload>, flags: Flags, listed: Account)
    ensures Todo(ps, flags, listed) == Kept(Filtered(ps, Unlisted(flags.only, listed)), flags.limit)
    ensures Edits(ps, flags, listed) == Kept(Filtered(ps, ShownOtherwise(flags.only, listed)), flags.limit)
    ensures Present(Chosen(ps, flags.only), listed) == Filtered(ps, Listed(flags.only, listed))
  {
    hide Missing, Present, Editable, Chosen, Filtered;
    TakenUpIs(ps, flags.only, listed);
  }

  /** An edit's row goes to the end, and the first row of its template is gone. */
  lemma ReplacedExactly(rows: seq<Row>, row: Row, at: nat)
    requires at <= |rows| && (at < |rows| ==> rows[at].key == row.key)
    requires forall i :: 0 <= i < at ==> rows[i].key != row.key
    ensures Replaced(rows, row) == rows[..at] + (if at < |rows| then rows[at + 1..] else []) + [row]
  {
    var n := FirstRow(rows, row.key);
    assert n == at;
    assert n == |rows| ==> rows[..at] + [] == rows;
  }

  // ---------- At most five tries ----------

  function Count(ws: seq<Write>, w: Write): nat {
    if ws == [] then 0 else Count(ws[..|ws| - 1], w) + if ws[|ws| - 1] == w then 1 else 0
  }

  predicate DistinctKeys(ps: seq<Payload>) {
    forall i, j :: 0 <= i < j < |ps| ==> ps[i].key != ps[j].key
  }

  lemma {:induction false} CountRepeat(ws: seq<Write>, v: Write, n: nat, w: Write)
    ensures Count(ws + Repeat(v, n), w) == Count(ws, w) + if v == w then n else 0
  {
    if n == 0 {
      assert ws + Repeat(v, 0) == ws;
    } else {
      CountRepeat(ws, v, n - 1, w);
      var more := ws + Repeat(v, n - 1);
      assert ws + Repeat(v, n) == more + [v];
      assert (more + [v])[..|more|] == more;
    }
  }

  predicate Has(ps: seq<Payload>, w: Write, edit: bool) {
    exists i :: 0 <= i < |ps| && WriteOf(ps[i], edit) == w
  }

  lemma CountWritten(s: State, p: Payload, edit: bool, server: Server, w: Write)
    ensures Count(Written(s, p, edit, server).sent, w)
            <= Count(s.sent, w) + if WriteOf(p, edit) == w then ATTEMPTS else 0
  {
    var n := Attempts(server, |s.sent|, 0).1;
    CountRepeat(s.sent, WriteOf(p, edit), n, w);
  }

  lemma {:induction false} CountWrittenAll(s: State, ps: seq<Payload>, edit: bool, server: Server, w: Write)
    requires DistinctKeys(ps)
    ensures Count(WrittenAll(s, ps, edit, server).sent, w)
            <= Count(s.sent, w) + if Has(ps, w, edit) then ATTEMPTS else 0
  {
    if ps != [] {
      hide Written, Count;
      var init, last := ps[..|ps| - 1], ps[|ps| - 1];
      CountWrittenAll(s, init, edit, server, w);
      CountWritten(WrittenAll(s, init, edit, server), last, edit, server, w);
      assert Has(init, w, edit) ==> Has(ps, w, edit) by {
        if Has(init, w, edit) {
          var i :| 0 <= i < |init| && WriteOf(init[i], edit) == w;
          assert ps[i] == init[i];
        }
      }
      assert WriteOf(last, edit) == w ==> Has(ps, w, edit) && !Has(init, w, edit);
    }
  }

  predicate Within(a: seq<Payload>, b: seq<Payload>) {
    DistinctKeys(a) && forall p :: p in a ==> p in b
  }

  lemma {:induction false} ChosenDistinct(ps: seq<Payload>, only: Option<set<string>>)
    requires DistinctKeys(ps)
    ensures Within(Chosen(ps, only), ps)
  {
    if ps != [] {
      var init, last := ps[..|ps| - 1], ps[|ps| - 1];
      ChosenDistinct(init, only);
      NewKey(ps, Chosen(init, only));
    }
  }

  lemma {:induction false} MissingDistinct(ps: seq<Payload>, listed: Account)
    requires DistinctKeys(ps)
    ensures Within(Missing(ps, listed), ps)
  {
    if ps != [] {
      MissingDistinct(ps[..|ps| - 1], listed);
      NewKey(ps, Missing(ps[..|ps| - 1], listed));
    }
  }

  lemma {:induction false} EditableDistinct(ps: seq<Payload>, listed: Account)
    requires DistinctKeys(ps)
    ensures Within(Editable(ps, listed), ps)
  {
    if ps != [] {
      EditableDistinct(ps[..|ps| - 1], listed);
      NewKey(ps, Editable(ps[..|ps| - 1], listed));
    }
  }

  lemma NewKey(ps: seq<Payload>, some: seq<Payload>)
    requires ps != [] && DistinctKeys(ps) && Within(some, ps[..|ps| - 1])
    ensures Within(some, ps) && Within(some + [ps[|ps| - 1]], ps)
  {
    var init, last := ps[..|ps| - 1], ps[|ps| - 1];
    forall p | p in some ensures p in ps && p.key != last.key {
      assert p in init;
      var i :| 0 <= i < |init| && init[i] == p;
      assert ps[i] == p;
    }
    assert forall i :: 0 <= i < |some| ==> some[i] in some;
  }

  lemma LimitedDistinct(ps: seq<Payload>, limit: int)
    requires DistinctKeys(ps)
    ensures DistinctKeys(Limited(ps, limit))
  {
  }

  lemma SelectionsDistinct(ps: seq<Payload>, flags: Flags, listed: Account)
    requires DistinctKeys(ps)
    ensures DistinctKeys(Todo(ps, flags, listed)) && DistinctKeys(Edits(ps, flags, listed))
  {
    ChosenDistinct(ps, flags.only);
    var chosen := Chosen(ps, flags.only);
    MissingDistinct(chosen, listed);
    EditableDistinct(chosen, listed);
    LimitedDistinct(Missing(chosen, listed), flags.limit);
    LimitedDistinct(Editable(chosen, listed), flags.limit);
  }

  /** No write is tried more than five times in a run, however the API answers. */
  lemma AtMostFiveTries(s: State, ps: seq<Payload>, flags: Flags, server: Server, w: Write)
    requires DistinctKeys(ps)
    ensures Count(AfterRun(s, ps, flags, server).sent, w) <= Count(s.sent, w) + ATTEMPTS
  {
    hide WrittenAll, Count, Todo, Edits, DistinctKeys;
    SelectionsDistinct(ps, flags, s.live);
    var todo, edits := Todo(ps, flags, s.live), Edits(ps, flags, s.live);
    CountWrittenAll(s, todo, false, server, w);
    CountWrittenAll(WrittenAll(s, todo, false, server), edits, true, server, w);
    assert !(Has(todo, w, false) && Has(edits, w, true));
  }

  // ---------- Runs after runs ----------

  lemma {:induction false} StoredGrows(live: Account, server: Server, t: nat, n: nat, p: Payload, key: Key)
    ensures key in live ==> key in StoredAll(live, server, t, n, p)
    ensures key != p.key ==> (key in StoredAll(live, server, t, n, p) <==> key in live)
    ensures key != p.key && key in live ==> StoredAll(live, server, t, n, p)[key] == live[key]
  {
    if n > 0 { StoredGrows(live, server, t, n - 1, p, key); }
  }

  lemma {:induction false} KeysStay(s: State, ps: seq<Payload>, edit: bool, server: Server, key: Key)
    ensures key in s.live ==> key in WrittenAll(s, ps, edit, server).live
  {
    if ps != [] {
      KeysStay(s, ps[..|ps| - 1], edit, server, key);
      var before, p := WrittenAll(s, ps[..|ps| - 1], edit, server), ps[|ps| - 1];
      StoredGrows(before.live, server, |before.sent|, Attempts(server, |before.sent|, 0).1, p, key);
      hide StoredAll, Attempts;
    }
  }

  lemma RunKeepsKeys(s: State, ps: seq<Payload>, flags: Flags, server: Server, key: Key)
    requires key in s.live
    ensures key in AfterRun(s, ps, flags, server).live
  {
    hide WrittenAll;
    var todo, edits := Todo(ps, flags, s.live), Edits(ps, flags, s.live);
    KeysStay(s, todo, false, server, key);
    KeysStay(WrittenAll(s, todo, false, server), edits, true, server, key);
  }

  /** A run of the script, or Meta's own changes: templates reviewed, edited or added, none removed. */
  datatype Step = Run(ps: seq<Payload>, flags: Flags) | Reviewed(live: Account)

  function Apply(s: State, step: Step, server: Server): State {
    match step
    case Run(ps, flags) => AfterRun(s.(thrown := false), ps, flags, server)
    case Reviewed(live) => if forall k :: k in s.live ==> k in live then s.(live := live) else s
  }

  function ApplyAll(s: State, steps: seq<Step>, server: Server): State {
    if steps == [] then s else Apply(ApplyAll(s, steps[..|steps| - 1], server), steps[|steps| - 1], server)
  }

  /** The key is there, and no create of it has been sent since `n`. */
  predicate Settled(s: State, key: Key, n: nat) {
    key in s.live && n <= |s.sent| && forall i :: n <= i < |s.sent| ==> s.sent[i] != Create(key)
  }

  /** Resumable: once the account holds a key, no run ever creates it again, whatever became of the runs
      before it. */
  lemma {:induction false} NeverCreatedAgain(s: State, steps: seq<Step>, server: Server, key: Key)
    requires key in s.live
    ensures Settled(ApplyAll(s, steps, server), key, |s.sent|)
  {
    if steps != [] {
      var before, step := ApplyAll(s, steps[..|steps| - 1], server), steps[|steps| - 1];
      NeverCreatedAgain(s, steps[..|steps| - 1], server, key);
      hide AfterRun, ApplyAll;
      if step.Run? {
        var start := before.(thrown := false);
        var after := AfterRun(start, step.ps, step.flags, server);
        RunKeepsKeys(start, step.ps, step.flags, server, key);
        RunSendsOnlyAllowed(start, step.ps, step.flags, server);
        forall i | |s.sent| <= i < |after.sent| ensures after.sent[i] != Create(key) {
          if i < |before.sent| {
            assert after.sent[i] == before.sent[i];
          } else {
            assert Allowed(after.sent[i], Chosen(step.ps, step.flags.only), start.live);
          }
        }
      }
    }
  }

  // ---------- After a full success ----------

  /** Every one of the writes is made. */
  predicate AllMade(s: State, ps: seq<Payload>, edit: bool, server: Server) {
    ps == [] ||
    (AllMade(s, ps[..|ps| - 1], edit, server)
     && Attempts(server, |WrittenAll(s, ps[..|ps| - 1], edit, server).sent|, 0).0 == Made)
  }

  lemma {:induction false} MadeIsStored(server: Server, t: nat, attempt: nat, live: Account, p: Payload)
    requires attempt <= ATTEMPTS && Attempts(server, t, attempt).0 == Made
    ensures var n := Attempts(server, t, attempt).1;
            n > 0 && server(t + n - 1).reply == Ok200
            && p.key in StoredAll(live, server, t, n, p) && StoredAll(live, server, t, n, p)[p.key].shape == p.shape
    decreases ATTEMPTS - attempt
  {
    if server(t).reply == Throttled { MadeIsStored(server, t + 1, attempt + 1, live, p); }
  }

  /** What the account holds of `key` once the payloads are written: the payload of that key if there
      is one, and what it held before otherwise. */
  predicate HoldsOf(before: Account, after: Account, ps: seq<Payload>, key: Key) {
    && (forall i :: 0 <= i < |ps| && ps[i].key == key ==> key in after && after[key].shape == ps[i].shape)
    && ((forall i :: 0 <= i < |ps| ==> ps[i].key != key) ==>
          (key in after <==> key in before) && (key in before ==> after[key] == before[key]))
  }

  lemma HoldsNext(before: Account, middle: Account, after: Account, ps: seq<Payload>, key: Key)
    requires ps != [] && DistinctKeys(ps) && HoldsOf(before, middle, ps[..|ps| - 1], key)
    requires HoldsOf(middle, after, [ps[|ps| - 1]], key)
    ensures HoldsOf(before, after, ps, key)
  {
    var init, p := ps[..|ps| - 1], ps[|ps| - 1];
    assert forall i :: 0 <= i < |init| ==> init[i] == ps[i];
    assert [p][0] == p;
  }

  lemma MadeHolds(s: State, p: Payload, edit: bool, server: Server, key: Key)
    requires !s.thrown && Attempts(server, |s.sent|, 0).0 == Made
    ensures !Written(s, p, edit, server).thrown && HoldsOf(s.live, Written(s, p, edit, server).live, [p], key)
  {
    MadeIsStored(server, |s.sent|, 0, s.live, p);
    StoredGrows(s.live, server, |s.sent|, Attempts(server, |s.sent|, 0).1, p, key);
    hide StoredAll, Attempts;
    assert [p][0] == p;
  }

  lemma {:induction false} MadeAllStored(s: State, ps: seq<Payload>, edit: bool, server: Server, key: Key)
    requires !s.thrown && DistinctKeys(ps) && AllMade(s, ps, edit, server)
    ensures !WrittenAll(s, ps, edit, server).thrown && HoldsOf(s.live, WrittenAll(s, ps, edit, server).live, ps, key)
  {
    if ps != [] {
      hide Attempts, Written, HoldsOf;
      var init, p := ps[..|ps| - 1], ps[|ps| - 1];
      var before := WrittenAll(s, init, edit, server);
      MadeAllStored(s, init, edit, server, key);
      MadeHolds(before, p, edit, server, key);
      HoldsNext(s.live, before.live, Written(before, p, edit, server).live, ps, key);
    }
  }

  lemma {:induction false} NothingMissing(ps: seq<Payload>, live: Account)
    requires forall p :: p in ps ==> p.key in live
    ensures Missing(ps, live) == []
  {
    if ps != [] {
      assert ps[|ps| - 1] in ps;
      assert forall p :: p in ps[..|ps| - 1] ==> p in ps;
      NothingMissing(ps[..|ps| - 1], live);
    }
  }

  lemma {:induction false} NothingEditable(ps: seq<Payload>, live: Account)
    requires forall p :: p in ps ==> !MayEdit(p, live)
    ensures Editable(ps, live) == []
  {
    if ps != [] {
      assert ps[|ps| - 1] in ps;
      assert forall p :: p in ps[..|ps| - 1] ==> p in ps;
      NothingEditable(ps[..|ps| - 1], live);
    }
  }

  /** Everything the run sent was made. */
  predicate AllSentMade(s: State, ps: seq<Payload>, flags: Flags, server: Server) {
    && flags.submit && !s.thrown
    && AllMade(s, Todo(ps, flags, s.live), false, server)
    && (flags.edit ==>
          AllMade(WrittenAll(s, Todo(ps, flags, s.live), false, server), Edits(ps, flags, s.live), true, server))
  }

  /** The limit left out nothing there was to create or, if asked, to edit. */
  predicate Uncut(s: State, ps: seq<Payload>, flags: Flags) {
    var chosen := Chosen(ps, flags.only);
    && Todo(ps, flags, s.live) == Missing(chosen, s.live)
    && (flags.edit ==> Edits(ps, flags, s.live) == Editable(chosen, s.live))
  }

  /** What the account holds of a chosen template after a run whose writes were all made: what the run sent
      of it, and what was there before where it sent nothing. */
  lemma HeldAfter(s: State, ps: seq<Payload>, flags: Flags, server: Server, p: Payload)
    requires DistinctKeys(ps) && AllSentMade(s, ps, flags, server) && p in Chosen(ps, flags.only)
    ensures var after := AfterRun(s, ps, flags, server);
            var todo, edits := Todo(ps, flags, s.live), Edits(ps, flags, s.live);
            && !after.thrown
            && (p in todo || (flags.edit && p in edits) ==> p.key in after.live && after.live[p.key].shape == p.shape)
            && (p !in todo && !(flags.edit && p in edits) ==>
                  (p.key in after.live <==> p.key in s.live)
                  && (p.key in s.live ==> after.live[p.key] == s.live[p.key]))
  {
    var chosen := Chosen(ps, flags.only);
    var todo, edits := Todo(ps, flags, s.live), Edits(ps, flags, s.live);
    ChosenDistinct(ps, flags.only);
    SelectionsDistinct(ps, flags, s.live);
    OneOfKey(chosen, todo, p, s.live, flags.limit);
    OneOfKey(chosen, edits, p, s.live, flags.limit);
    TodoIsMissing(ps, flags, s.live, p);
    hide Chosen, Missing, Editable, DistinctKeys, AllMade, WrittenAll, Todo, Edits;
    var created := WrittenAll(s, todo, false, server);
    MadeAllStored(s, todo, false, server, p.key);
    if flags.edit { MadeAllStored(created, edits, true, server, p.key); }
  }

  lemma TodoIsMissing(ps: seq<Payload>, flags: Flags, listed: Account, p: Payload)
    ensures p in Todo(ps, flags, listed) ==> p.key !in listed
    ensures p in Edits(ps, flags, listed) ==> p.key in listed
  {
    MissingIn(Chosen(ps, flags.only), listed, p);
    EditableIn(Chosen(ps, flags.only), listed, p);
  }

  /** After a run that sent everything there was and had all of it made, each chosen template is there and,
      if edits were asked for, as wanted or not to be edited. */
  lemma SettledKey(s: State, ps: seq<Payload>, flags: Flags, server: Server, p: Payload)
    requires DistinctKeys(ps) && AllSentMade(s, ps, flags, server) && Uncut(s, ps, flags)
    requires p in Chosen(ps, flags.only)
    ensures var after := AfterRun(s, ps, flags, server);
            p.key in after.live && (flags.edit ==> !MayEdit(p, after.live))
  {
    hide AfterRun, AllSentMade, DistinctKeys, Chosen, Todo, Edits;
    HeldAfter(s, ps, flags, server, p);
    MissingIn(Chosen(ps, flags.only), s.live, p);
    EditableIn(Chosen(ps, flags.only), s.live, p);
  }

  /** Among a selection of the chosen payloads, only `p` itself has its key. */
  lemma OneOfKey(chosen: seq<Payload>, some: seq<Payload>, p: Payload, listed: Account, limit: int)
    requires DistinctKeys(chosen) && p in chosen
    requires some == Limited(Missing(chosen, listed), limit) || some == Limited(Editable(chosen, listed), limit)
    ensures forall i :: 0 <= i < |some| && some[i].key == p.key ==> some[i] == p
    ensures p in some ==> exists i :: 0 <= i < |some| && some[i].key == p.key && some[i] == p
  {
    forall i | 0 <= i < |some| && some[i].key == p.key ensures some[i] == p {
      MissingIn(chosen, listed, some[i]);
      EditableIn(chosen, listed, some[i]);
      var j :| 0 <= j < |chosen| && chosen[j] == some[i];
      var k :| 0 <= k < |chosen| && chosen[k] == p;
    }
  }

  lemma AtLeastOneTry(server: Server, t: nat)
    ensures Attempts(server, t, 0).1 >= 1
  {
  }

  lemma {:induction false} SendingSends(s: State, ps: seq<Payload>, edit: bool, server: Server)
    requires !s.thrown && ps != []
    ensures |WrittenAll(s, ps, edit, server).sent| > |s.sent|
  {
    var init, p := ps[..|ps| - 1], ps[|ps| - 1];
    var before := WrittenAll(s, init, edit, server);
    if init == [] {
      AtLeastOneTry(server, |s.sent|);
    } else {
      SendingSends(s, init, edit, server);
      hide WrittenAll, Written;
      WriteIsIts(before, p, edit, server);
      WrittenStep(s, ps, |ps| - 1, edit, server);
      assert ps[..|ps|] == ps && ps[..|ps| - 1] == init;
    }
  }

  /** A payload the limit cut off is not in what was sent. */
  lemma CutOff(some: seq<Payload>, limit: int) returns (p: Payload)
    requires DistinctKeys(some) && Limited(some, limit) != some
    ensures p in some && p !in Limited(some, limit)
  {
    p := some[limit];
  }

  /** A run after one whose writes were all made sends nothing at all exactly when the limit cut nothing off
      that first run, as long as Meta leaves what it was sent; with or without edits. */
  lemma NothingLeftToSendExactly(s: State, ps: seq<Payload>, flags: Flags, server: Server)
    requires DistinctKeys(ps) && AllSentMade(s, ps, flags, server)
    ensures var after := AfterRun(s, ps, flags, server);
            !after.thrown && (AfterRun(after, ps, flags, server) == after <==> Uncut(s, ps, flags))
  {
    var after := AfterRun(s, ps, flags, server);
    NotThrownOut(s, ps, flags, server);
    if Uncut(s, ps, flags) {
      NothingLeft(s, ps, flags, server);
    } else if Todo(ps, flags, s.live) != Missing(Chosen(ps, flags.only), s.live) {
      MoreToCreate(s, ps, flags, server);
    } else {
      MoreToEdit(s, ps, flags, server);
    }
  }

  lemma NotThrownOut(s: State, ps: seq<Payload>, flags: Flags, server: Server)
    requires DistinctKeys(ps) && AllSentMade(s, ps, flags, server)
    ensures !AfterRun(s, ps, flags, server).thrown
  {
    SelectionsDistinct(ps, flags, s.live);
    var todo, edits := Todo(ps, flags, s.live), Edits(ps, flags, s.live);
    hide AllMade, DistinctKeys, Todo, Edits;
    MadeAllStored(s, todo, false, server, Key("", ""));
    if flags.edit { MadeAllStored(WrittenAll(s, todo, false, server), edits, true, server, Key("", "")); }
  }

  lemma NothingLeft(s: State, ps: seq<Payload>, flags: Flags, server: Server)
    requires DistinctKeys(ps) && AllSentMade(s, ps, flags, server) && Uncut(s, ps, flags)
    ensures AfterRun(AfterRun(s, ps, flags, server), ps, flags, server) == AfterRun(s, ps, flags, server)
  {
    var after, chosen := AfterRun(s, ps, flags, server), Chosen(ps, flags.only);
    NotThrownOut(s, ps, flags, server);
    forall p | p in chosen ensures p.key in after.live && (flags.edit ==> !MayEdit(p, after.live)) {
      SettledKey(s, ps, flags, server, p);
    }
    NothingMissing(chosen, after.live);
    if flags.edit { NothingEditable(chosen, after.live); }
    hide AllSentMade, Chosen, DistinctKeys, Uncut;
  }

  lemma MoreToCreate(s: State, ps: seq<Payload>, flags: Flags, server: Server)
    requires DistinctKeys(ps) && AllSentMade(s, ps, flags, server)
    requires Todo(ps, flags, s.live) != Missing(Chosen(ps, flags.only), s.live)
    ensures var after := AfterRun(s, ps, flags, server); AfterRun(after, ps, flags, server) != after
  {
    hide WrittenAll, AllMade, Chosen, DistinctKeys;
    var after, chosen := AfterRun(s, ps, flags, server), Chosen(ps, flags.only);
    ChosenDistinct(ps, flags.only);
    MissingDistinct(chosen, s.live);
    var p := CutOff(Missing(chosen, s.live), flags.limit);
    MissingIn(chosen, s.live, p);
    TodoIsMissing(ps, flags, s.live, p);
    HeldAfter(s, ps, flags, server, p);
    MissingIn(chosen, after.live, p);
    var todo := Todo(ps, flags, after.live);
    assert todo != [];
    SendingSends(after, todo, false, server);
    WritesAreTheirs(WrittenAll(after, todo, false, server), Edits(ps, flags, after.live), true, server);
  }

  lemma MoreToEdit(s: State, ps: seq<Payload>, flags: Flags, server: Server)
    requires DistinctKeys(ps) && AllSentMade(s, ps, flags, server)
    requires flags.edit && Todo(ps, flags, s.live) == Missing(Chosen(ps, flags.only), s.live)
    requires Edits(ps, flags, s.live) != Editable(Chosen(ps, flags.only), s.live)
    ensures var after := AfterRun(s, ps, flags, server); AfterRun(after, ps, flags, server) != after
  {
    hide WrittenAll, AllMade, Chosen, DistinctKeys;
    var after, chosen := AfterRun(s, ps, flags, server), Chosen(ps, flags.only);
    ChosenDistinct(ps, flags.only);
    EditableDistinct(chosen, s.live);
    var p := CutOff(Editable(chosen, s.live), flags.limit);
    EditableIn(chosen, s.live, p);
    TodoIsMissing(ps, flags, s.live, p);
    HeldAfter(s, ps, flags, server, p);
    EditableIn(chosen, after.live, p);
    var todo, edits := Todo(ps, flags, after.live), Edits(ps, flags, after.live);
    assert edits != [];
    if todo == [] {
      NoneWritten(after, todo, false, server);
      assert todo[..0] == todo;
      SendingSends(after, edits, true, server);
    } else {
      SendingSends(after, todo, false, server);
      WritesAreTheirs(WrittenAll(after, todo, false, server), edits, true, server);
    }
  }

  // ---------- The report tells the truth ----------

  /** What a row says of the account. */
  predicate RowTrue(row: Row, before: Account, after: Account, chosen: seq<Payload>) {
    exists i :: 0 <= i < |chosen| && chosen[i].key == row.key &&
      match row.status
      case Exists => row.key in before
      case Created => row.key !in before && row.key in after && after[row.key].shape == chosen[i].shape
      case Edited => row.key in before && row.key in after && after[row.key].shape == chosen[i].shape
      case Failed => row.key !in before || MayEdit(chosen[i], before)
  }

  /** A row written of one of the payloads: made and there as wanted, or failed. */
  predicate RowStands(row: Row, ps: seq<Payload>, edit: bool, live: Account) {
    exists i :: 0 <= i < |ps| && ps[i].key == row.key &&
      (row.status == Failed
       || (row.status == (if edit then Edited else Created) && row.key in live && live[row.key].shape == ps[i].shape))
  }

  lemma StandsLonger(row: Row, ps: seq<Payload>, p: Payload, edit: bool, live: Account, next: Account)
    requires RowStands(row, ps, edit, live)
    requires row.key in live ==> row.key in next && next[row.key] == live[row.key]
    ensures RowStands(row, ps + [p], edit, next)
  {
    var i :| 0 <= i < |ps| && ps[i].key == row.key &&
      (row.status == Failed
       || (row.status == (if edit then Edited else Created) && row.key in live && live[row.key].shape == ps[i].shape));
    assert (ps + [p])[i] == ps[i];
  }

  lemma NewRowStands(s: State, ps: seq<Payload>, p: Payload, edit: bool, server: Server)
    requires !s.thrown
    ensures RowStands(RowOf(s, p, edit, server), ps + [p], edit, Written(s, p, edit, server).live)
  {
    if OutcomeOf(s, server) == Made { MadeIsStored(server, |s.sent|, 0, s.live, p); }
    assert (ps + [p])[|ps|] == p;
  }

  lemma OthersKept(s: State, p: Payload, edit: bool, server: Server, key: Key)
    requires key != p.key && key in s.live
    ensures var after := Written(s, p, edit, server).live; key in after && after[key] == s.live[key]
  {
    StoredGrows(s.live, server, |s.sent|, Attempts(server, |s.sent|, 0).1, p, key);
  }

  /** Every row of the report was there before the writes or stands for one of them. */
  lemma {:induction false} RowsStand(s: State, rows: seq<Row>, ps: seq<Payload>, edit: bool, server: Server, row: Row)
    requires DistinctKeys(ps) && !WrittenAll(s, ps, edit, server).thrown && row in RowsAfter(s, rows, ps, edit, server)
    ensures row in rows || RowStands(row, ps, edit, WrittenAll(s, ps, edit, server).live)
  {
    if ps != [] {
      var init, p := ps[..|ps| - 1], ps[|ps| - 1];
      var before := WrittenAll(s, init, edit, server);
      assert ps == init + [p];
      hide RowStands, Written, RowOf, WrittenAll, Replaced;
      RowsUnfold(s, rows, ps, edit, server);
      ReplacedIn(RowsAfter(s, rows, init, edit, server), RowOf(before, p, edit, server), row);
      NotThrownYet(before, p, edit, server);
      if row == RowOf(before, p, edit, server) {
        NewRowStands(before, init, p, edit, server);
      } else {
        RowsStand(s, rows, init, edit, server, row);
        if row !in rows {
          StandsHasKey(row, init, edit, before.live);
          if row.key in before.live { OthersKept(before, p, edit, server, row.key); }
          StandsLonger(row, init, p, edit, before.live, Written(before, p, edit, server).live);
        }
      }
    }
  }

  lemma RowsUnfold(s: State, rows: seq<Row>, ps: seq<Payload>, edit: bool, server: Server)
    requires ps != []
    ensures var before := WrittenAll(s, ps[..|ps| - 1], edit, server);
            var row := RowOf(before, ps[|ps| - 1], edit, server);
            && WrittenAll(s, ps, edit, server) == Written(before, ps[|ps| - 1], edit, server)
            && RowsAfter(s, rows, ps, edit, server) ==
               var earlier := RowsAfter(s, rows, ps[..|ps| - 1], edit, server);
               if edit then Replaced(earlier, row) else earlier + [row]
  {
  }

  lemma ReplacedIn(rows: seq<Row>, new': Row, row: Row)
    ensures row in Replaced(rows, new') ==> row in rows || row == new'
    ensures row in rows + [new'] ==> row in rows || row == new'
  {
  }

  lemma NotThrownYet(s: State, p: Payload, edit: bool, server: Server)
    requires !Written(s, p, edit, server).thrown
    ensures !s.thrown
  {
  }

  lemma StandsHasKey(row: Row, ps: seq<Payload>, edit: bool, live: Account)
    requires RowStands(row, ps, edit, live)
    ensures exists i :: 0 <= i < |ps| && ps[i].key == row.key
  {
  }

  /** Every row of the report is true of the account: existing rows were there, created and edited ones are
      there with what was wanted, and a failed one was to be created or edited. */
  lemma ReportIsTrue(s: State, ps: seq<Payload>, flags: Flags, server: Server, row: Row)
    requires DistinctKeys(ps) && !s.thrown && flags.submit && !AfterRun(s, ps, flags, server).thrown
    requires row in Report(s, ps, flags, server)
    ensures RowTrue(row, s.live, AfterRun(s, ps, flags, server).live, Chosen(ps, flags.only))
  {
    hide RowsAfter, WrittenAll, Chosen, Todo, Edits, RowStands, RowTrue;
    var chosen, todo, edits := Chosen(ps, flags.only), Todo(ps, flags, s.live), Edits(ps, flags, s.live);
    var first := ExistingRows(Present(chosen, s.live));
    var created := WrittenAll(s, todo, false, server);
    var rows := RowsAfter(s, first, todo, false, server);
    SelectionsDistinct(ps, flags, s.live);
    if flags.edit && row !in rows {
      RowsStand(created, rows, edits, true, server, row);
      EditRowTrue(s, ps, flags, server, row);
    } else {
      RowsStand(s, first, todo, false, server, row);
      if row in first { ExistingRowTrue(s, ps, flags, server, row); } else { CreateRowTrue(s, ps, flags, server, row); }
    }
  }

  lemma {:induction false} PresentIn(ps: seq<Payload>, listed: Account, p: Payload)
    ensures p in Present(ps, listed) <==> p in ps && p.key in listed
  {
    if ps != [] {
      PresentIn(ps[..|ps| - 1], listed, p);
      assert ps == ps[..|ps| - 1] + [ps[|ps| - 1]];
    }
  }

  lemma ExistingRowTrue(s: State, ps: seq<Payload>, flags: Flags, server: Server, row: Row)
    requires row in ExistingRows(Present(Chosen(ps, flags.only), s.live))
    ensures RowTrue(row, s.live, AfterRun(s, ps, flags, server).live, Chosen(ps, flags.only))
  {
    hide AfterRun, Chosen, Present;
    var chosen := Chosen(ps, flags.only);
    var present := Present(chosen, s.live);
    var i :| 0 <= i < |present| && row == Row(present[i].key, Exists);
    PresentIn(chosen, s.live, present[i]);
    var j :| 0 <= j < |chosen| && chosen[j] == present[i];
  }

  lemma CreateRowTrue(s: State, ps: seq<Payload>, flags: Flags, server: Server, row: Row)
    requires DistinctKeys(ps) && flags.submit && !AfterRun(s, ps, flags, server).thrown
    requires RowStands(row, Todo(ps, flags, s.live), false, WrittenAll(s, Todo(ps, flags, s.live), false, server).live)
    ensures RowTrue(row, s.live, AfterRun(s, ps, flags, server).live, Chosen(ps, flags.only))
  {
    hide WrittenAll, Chosen, Missing, Editable;
    var chosen, todo, edits := Chosen(ps, flags.only), Todo(ps, flags, s.live), Edits(ps, flags, s.live);
    var created := WrittenAll(s, todo, false, server);
    var i :| 0 <= i < |todo| && todo[i].key == row.key &&
      (row.status == Failed
       || (row.status == Created && row.key in created.live && created.live[row.key].shape == todo[i].shape));
    MissingIn(chosen, s.live, todo[i]);
    var j :| 0 <= j < |chosen| && chosen[j] == todo[i];
    forall p | p in edits ensures p.key != row.key { TodoIsMissing(ps, flags, s.live, p); }
    if row.key in created.live && flags.edit { KeptThrough(created, edits, true, server, row.key); }
  }

  lemma EditRowTrue(s: State, ps: seq<Payload>, flags: Flags, server: Server, row: Row)
    requires flags.submit && flags.edit && !AfterRun(s, ps, flags, server).thrown
    requires var created := WrittenAll(s, Todo(ps, flags, s.live), false, server);
             RowStands(row, Edits(ps, flags, s.live), true,
                       WrittenAll(created, Edits(ps, flags, s.live), true, server).live)
    ensures RowTrue(row, s.live, AfterRun(s, ps, flags, server).live, Chosen(ps, flags.only))
  {
    hide WrittenAll, Chosen, Missing, Editable;
    var chosen, edits := Chosen(ps, flags.only), Edits(ps, flags, s.live);
    var created := WrittenAll(s, Todo(ps, flags, s.live), false, server);
    var after := WrittenAll(created, edits, true, server);
    var i :| 0 <= i < |edits| && edits[i].key == row.key &&
      (row.status == Failed
       || (row.status == Edited && row.key in after.live && after.live[row.key].shape == edits[i].shape));
    EditableIn(chosen, s.live, edits[i]);
    var j :| 0 <= j < |chosen| && chosen[j] == edits[i];
  }

  lemma {:induction false} KeptThrough(s: State, ps: seq<Payload>, edit: bool, server: Server, key: Key)
    requires key in s.live && forall p :: p in ps ==> p.key != key
    ensures var after := WrittenAll(s, ps, edit, server).live; key in after && after[key] == s.live[key]
  {
    if ps != [] {
      hide Written;
      assert ps[|ps| - 1] in ps && forall p :: p in ps[..|ps| - 1] ==> p in ps;
      KeptThrough(s, ps[..|ps| - 1], edit, server, key);
      OthersKept(WrittenAll(s, ps[..|ps| - 1], edit, server), ps[|ps| - 1], edit, server, key);
    }
  }

  // ---------- The account afterwards ----------

  /** The `i`-th write ever sent was one of this key and was stored, confirmed or not. */
  ghost predicate Landed(server: Server, sent: seq<Write>, from: nat, k: Key, i: nat) {
    from <= i < |sent| && sent[i].key == k && (server(i).reply == Ok200 || server(i).stored)
  }

  ghost predicate LastLanded(server: Server, sent: seq<Write>, from: nat, k: Key, i: nat) {
    Landed(server, sent, from, k, i) && forall j: nat :: i < j ==> !Landed(server, sent, from, k, j)
  }

  ghost predicate Untouched(s: State, after: State, k: Key) {
    (k in after.live <==> k in s.live) && (k in s.live ==> after.live[k] == s.live[k])
  }

  /** The key holds what its last stored write put there, and what it held before where none was stored. */
  ghost predicate HoldsLast(server: Server, s: State, after: State, k: Key) {
    && s.sent <= after.sent
    && (forall i: nat :: LastLanded(server, after.sent, |s.sent|, k, i) ==>
          k in after.live && after.live[k].status == server(i).status)
    && ((forall i: nat :: !Landed(server, after.sent, |s.sent|, k, i)) ==> Untouched(s, after, k))
  }

  lemma HoldsNothing(server: Server, s: State, k: Key)
    ensures HoldsLast(server, s, s, k)
  {
  }

  lemma LastSplits(server: Server, a: seq<Write>, b: seq<Write>, from: nat, k: Key, i: nat)
    requires a <= b && from <= |a| && LastLanded(server, b, from, k, i)
    ensures if i < |a| then LastLanded(server, a, from, k, i) && forall j: nat :: !Landed(server, b, |a|, k, j)
            else LastLanded(server, b, |a|, k, i)
  {
    forall j: nat | Landed(server, a, from, k, j) || Landed(server, b, |a|, k, j)
      ensures Landed(server, b, from, k, j)
    {
    }
  }

  lemma NoneSplits(server: Server, a: seq<Write>, b: seq<Write>, from: nat, k: Key)
    requires a <= b && from <= |a| && forall j: nat :: !Landed(server, b, from, k, j)
    ensures forall j: nat :: !Landed(server, a, from, k, j) && !Landed(server, b, |a|, k, j)
  {
    forall j: nat ensures !Landed(server, a, from, k, j) && !Landed(server, b, |a|, k, j) {
      assert !Landed(server, b, from, k, j);
    }
  }

  lemma HoldsOnwards(server: Server, s: State, middle: State, after: State, k: Key)
    requires HoldsLast(server, s, middle, k) && HoldsLast(server, middle, after, k)
    ensures HoldsLast(server, s, after, k)
  {
    hide Landed, LastLanded;
    assert s.sent <= after.sent;
    forall i: nat | LastLanded(server, after.sent, |s.sent|, k, i)
      ensures k in after.live && after.live[k].status == server(i).status
    {
      LastSplits(server, middle.sent, after.sent, |s.sent|, k, i);
    }
    if forall i: nat :: !Landed(server, after.sent, |s.sent|, k, i) {
      NoneSplits(server, middle.sent, after.sent, |s.sent|, k);
    }
  }

  lemma OneTryHolds(server: Server, s: State, p: Payload, edit: bool, k: Key)
    ensures HoldsLast(server, s, State(Stored(s.live, server(|s.sent|), p), s.sent + [WriteOf(p, edit)], false), k)
  {
    var sent := s.sent + [WriteOf(p, edit)];
    assert sent[|s.sent|] == WriteOf(p, edit) && WriteOf(p, edit).key == p.key;
    assert forall i: nat :: Landed(server, sent, |s.sent|, k, i) ==> i == |s.sent|;
    assert Landed(server, sent, |s.sent|, k, |s.sent|) <==>
           p.key == k && (server(|s.sent|).reply == Ok200 || server(|s.sent|).stored);
  }

  lemma {:induction false} TriesHold(server: Server, s: State, p: Payload, edit: bool, n: nat, k: Key)
    requires !s.thrown
    ensures HoldsLast(server, s, Tried(s, p, edit, server, n), k)
  {
    hide HoldsLast;
    if n == 0 {
      NotTried(s, p, edit, server);
      HoldsNothing(server, s, k);
    } else {
      TriesHold(server, s, p, edit, n - 1, k);
      TryStep(s, p, edit, server, n - 1);
      OneTryHolds(server, Tried(s, p, edit, server, n - 1), p, edit, k);
      HoldsOnwards(server, s, Tried(s, p, edit, server, n - 1), Tried(s, p, edit, server, n), k);
    }
  }

  lemma ThrownHolds(server: Server, s: State, after: State, thrown: bool, k: Key)
    requires HoldsLast(server, s, after, k)
    ensures HoldsLast(server, s, after.(thrown := thrown), k)
  {
  }

  lemma {:induction false} WritesHold(server: Server, s: State, ps: seq<Payload>, edit: bool, k: Key)
    ensures HoldsLast(server, s, WrittenAll(s, ps, edit, server), k)
  {
    hide HoldsLast, Tried, Attempts;
    if ps == [] {
      HoldsNothing(server, s, k);
    } else {
      var n := |ps| - 1;
      var before := WrittenAll(s, ps[..n], edit, server);
      WritesHold(server, s, ps[..n], edit, k);
      if before.thrown {
        HoldsNothing(server, before, k);
      } else {
        var (o, m) := Attempts(server, |before.sent|, 0);
        TriesHold(server, before, ps[n], edit, m, k);
        ThrownHolds(server, before, Tried(before, ps[n], edit, server, m), o == Thrown, k);
      }
      HoldsOnwards(server, s, before, WrittenAll(s, ps, edit, server), k);
    }
  }

  /** After a run every key holds what its last stored write put there, and what it held before where none was. */
  lemma AccountHoldsLast(s: State, ps: seq<Payload>, flags: Flags, server: Server, k: Key)
    ensures HoldsLast(server, s, AfterRun(s, ps, flags, server), k)
  {
    hide HoldsLast, WrittenAll, Todo, Edits;
    HoldsNothing(server, s, k);
    if flags.submit {
      var todo, edits := Todo(ps, flags, s.live), Edits(ps, flags, s.live);
      var created := WrittenAll(s, todo, false, server);
      WritesHold(server, s, todo, false, k);
      if !created.thrown && flags.edit {
        WritesHold(server, created, edits, true, k);
        HoldsOnwards(server, s, created, WrittenAll(created, edits, true, server), k);
      }
    }
  }
}
