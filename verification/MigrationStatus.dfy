/** What the ledger says of one migration: `resolveMigrationStatus` and `needsApplying`. */
module MigrationStatus {
  import opened Collections

  datatype LedgerRow = LedgerRow(checksum: string, at: int, success: bool)

  datatype Status = NotApplied | Applied | Changed | Failed

  function InsertNewest(r: LedgerRow, rows: seq<LedgerRow>): (s: seq<LedgerRow>)
    ensures multiset(s) == multiset{r} + multiset(rows)
  {
    if rows == [] || r.at >= rows[0].at then [r] + rows
    else assert rows == [rows[0]] + rows[1..]; [rows[0]] + InsertNewest(r, rows[1..])
  }

  /** Newest first; rows of one moment stay as they came. */
  function NewestFirst(rows: seq<LedgerRow>): (s: seq<LedgerRow>)
    ensures multiset(s) == multiset(rows)
  {
    if rows == [] then []
    else assert rows == [rows[0]] + rows[1..]; InsertNewest(rows[0], NewestFirst(rows[1..]))
  }

  function Successes(rows: seq<LedgerRow>): seq<LedgerRow> {
    if rows == [] then [] else (if rows[0].success then [rows[0]] else []) + Successes(rows[1..])
  }

  function Resolve(rows: seq<LedgerRow>, checksum: string): Status {
    if rows == [] then NotApplied
    else
      var newestFirst := NewestFirst(rows);
      SameLength(newestFirst, rows);
      var successes := Successes(newestFirst);
      if successes == [] then Failed
      else if !newestFirst[0].success && newestFirst[0].checksum == checksum then Failed
      else if successes[0].checksum == checksum then Applied
      else Changed
  }

  predicate NeedsApplying(status: Status) {
    status != Applied
  }

  // ---------- Newest first ----------

  ghost predicate Descending(rows: seq<LedgerRow>) {
    forall i, j :: 0 <= i < j < |rows| ==> rows[i].at >= rows[j].at
  }

  lemma {:induction false} InsertDescends(r: LedgerRow, rows: seq<LedgerRow>)
    requires Descending(rows)
    ensures Descending(InsertNewest(r, rows))
  {
    if rows != [] && r.at < rows[0].at {
      InsertDescends(r, rows[1..]);
      var s := InsertNewest(r, rows[1..]);
      forall i | 0 <= i < |s| ensures s[i].at <= rows[0].at {
        assert s[i] in multiset(s);
        assert s[i] == r || s[i] in rows[1..];
      }
    }
  }

  lemma {:induction false} SortDescends(rows: seq<LedgerRow>)
    ensures Descending(NewestFirst(rows))
  {
    if rows != [] {
      SortDescends(rows[1..]);
      InsertDescends(rows[0], NewestFirst(rows[1..]));
    }
  }

  lemma SameRows(a: seq<LedgerRow>, b: seq<LedgerRow>, r: LedgerRow)
    requires multiset(a) == multiset(b)
    ensures r in a <==> r in b
  {
    assert r in a <==> r in multiset(a);
    assert r in b <==> r in multiset(b);
  }

  lemma {:induction false} SuccessesIn(rows: seq<LedgerRow>, r: LedgerRow)
    ensures r in Successes(rows) <==> r in rows && r.success
  {
    if rows != [] {
      SuccessesIn(rows[1..], r);
      assert rows == [rows[0]] + rows[1..];
    }
  }

  // ---------- The order the rows are read in does not matter ----------

  ghost predicate DistinctTimes(rows: seq<LedgerRow>) {
    forall r, s :: r in rows && s in rows && r.at == s.at ==> r == s
  }

  lemma {:induction false} DescendingOnce(a: seq<LedgerRow>, b: seq<LedgerRow>)
    requires Descending(a) && Descending(b) && DistinctTimes(a) && multiset(a) == multiset(b)
    ensures a == b
  {
    SameLength(a, b);
    if a != [] {
      SameNewest(a, b);
      assert a == [a[0]] + a[1..] && b == [a[0]] + b[1..];
      Cancel(a[0], multiset(a[1..]), multiset(b[1..]));
      forall r | r in a[1..] ensures r in a {
      }
      hide Descending;
      DescendingTail(a);
      DescendingTail(b);
      DescendingOnce(a[1..], b[1..]);
    }
  }

  lemma SameNewest(a: seq<LedgerRow>, b: seq<LedgerRow>)
    requires Descending(a) && Descending(b) && DistinctTimes(a) && multiset(a) == multiset(b) && a != [] && b != []
    ensures a[0] == b[0]
  {
    SameRows(a, b, a[0]);
    SameRows(a, b, b[0]);
  }

  lemma DescendingTail(rows: seq<LedgerRow>)
    requires Descending(rows) && rows != []
    ensures Descending(rows[1..])
  {
  }

  /** The rows may come in any order. */
  lemma AnyOrder(a: seq<LedgerRow>, b: seq<LedgerRow>, checksum: string)
    requires DistinctTimes(a) && multiset(a) == multiset(b)
    ensures Resolve(a, checksum) == Resolve(b, checksum)
  {
    SortDescends(a);
    SortDescends(b);
    forall r ensures r in NewestFirst(a) <==> r in a {
      SameRows(NewestFirst(a), a, r);
    }
    DescendingOnce(NewestFirst(a), NewestFirst(b));
    SameLength(a, b);
  }

  // ---------- What each status means ----------

  /** `newest` is the last row there is. */
  ghost predicate Newest(rows: seq<LedgerRow>, newest: LedgerRow) {
    newest in rows && forall r :: r in rows && r != newest ==> r.at < newest.at
  }

  lemma NewestIsFirst(rows: seq<LedgerRow>, newest: LedgerRow)
    requires Newest(rows, newest)
    ensures NewestFirst(rows) != [] && NewestFirst(rows)[0] == newest
  {
    var s := NewestFirst(rows);
    SortDescends(rows);
    SameRows(s, rows, newest);
    SameRows(s, rows, s[0]);
  }

  /** A checksum that never ran to success needs applying. */
  lemma NeverRunNeedsApplying(rows: seq<LedgerRow>, checksum: string)
    requires forall r :: r in rows && r.success ==> r.checksum != checksum
    ensures NeedsApplying(Resolve(rows, checksum))
  {
    if rows != [] {
      var s := NewestFirst(rows);
      var successes := Successes(s);
      if successes != [] {
        SuccessesIn(s, successes[0]);
        SameRows(s, rows, successes[0]);
      }
    }
  }

  /** `success` is the last row that ran to success. */
  ghost predicate NewestSuccess(rows: seq<LedgerRow>, success: LedgerRow) {
    success in rows && success.success && forall r :: r in rows && r.success && r != success ==> r.at < success.at
  }

  lemma {:induction false} SuccessesDescend(rows: seq<LedgerRow>)
    requires Descending(rows)
    ensures Descending(Successes(rows))
  {
    if rows != [] {
      SuccessesDescend(rows[1..]);
      var rest := Successes(rows[1..]);
      forall i | 0 <= i < |rest| ensures rest[i].at <= rows[0].at {
        SuccessesIn(rows[1..], rest[i]);
      }
    }
  }

  lemma NewestSuccessIsFirst(rows: seq<LedgerRow>, success: LedgerRow)
    requires NewestSuccess(rows, success)
    ensures Successes(NewestFirst(rows)) != [] && Successes(NewestFirst(rows))[0] == success
  {
    var s := NewestFirst(rows);
    SortDescends(rows);
    SuccessesDescend(s);
    var t := Successes(s);
    SameRows(s, rows, success);
    SuccessesIn(s, success);
    SuccessesIn(s, t[0]);
    SameRows(s, rows, t[0]);
  }

  /** What the status says, of rows in any order: a last attempt of this very file that failed comes first, then
      whether the last success was of it. */
  lemma StatusExactly(rows: seq<LedgerRow>, newest: LedgerRow, success: LedgerRow, checksum: string)
    requires Newest(rows, newest) && NewestSuccess(rows, success)
    ensures Resolve(rows, checksum)
            == if !newest.success && newest.checksum == checksum then Failed
               else if success.checksum == checksum then Applied
               else Changed
  {
    hide NewestFirst, Successes, Newest, NewestSuccess;
    NewestIsFirst(rows, newest);
    NewestSuccessIsFirst(rows, success);
  }

  /** No row at all, or none that ran to success. */
  lemma NeverSucceeded(rows: seq<LedgerRow>, checksum: string)
    requires forall r :: r in rows ==> !r.success
    ensures Resolve(rows, checksum) == if rows == [] then NotApplied else Failed
  {
    var s := NewestFirst(rows);
    if Successes(s) != [] {
      SuccessesIn(s, Successes(s)[0]);
      SameRows(s, rows, Successes(s)[0]);
    }
  }
}
