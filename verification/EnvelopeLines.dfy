/** What the envelope pass takes a line for, said of its characters. */
module EnvelopeLines {
  import opened Options
  import opened JsText
  import opened EnvelopeFix

  // ---------- Ends and beginnings of a line ----------

  /** Matches `/^,?\s*$/`. */
  predicate CommaTail(t: string) {
    Blank(t) || (t != [] && t[0] == ',' && Blank(t[1..]))
  }

  lemma {:induction false} TrimEndIs(l: string)
    ensures TrimEnd(l) <= l && Blank(l[|TrimEnd(l)|..])
    ensures TrimEnd(l) != [] ==> !IsSpace(TrimEnd(l)[|TrimEnd(l)| - 1])
  {
    if l != [] && IsSpace(l[|l| - 1]) {
      var init := l[..|l| - 1];
      TrimEndIs(init);
      var t := TrimEnd(l);
      assert l[|t|..] == init[|t|..] + [l[|l| - 1]];
    }
  }

  /** The comma takes the place of the longest end of the line that is white space, a comma in front of it or not. */
  lemma WithCommaExactly(l: string) returns (p: nat)
    ensures p <= |l| && WithComma(l) == l[..p] + "," && CommaTail(l[p..])
    ensures forall q: nat :: q < p ==> !CommaTail(l[q..])
  {
    TrimEndIs(l);
    hide TrimEnd, IsSpace;
    var t := TrimEnd(l);
    p := |Bare(l)|;
    assert l[..p] == Bare(l);
    if p < |t| {
      assert l[p] == ',' && l[p..][1..] == l[|t|..];
    }
    forall q: nat | q < p ensures !CommaTail(l[q..]) {
      LastStays(l, t, q, p);
    }
  }

  lemma LastStays(l: string, t: string, q: nat, p: nat)
    requires q < p <= |t| && t <= l && !IsSpace(t[|t| - 1]) && (p == |t| ==> t[|t| - 1] != ',') && p + 1 >= |t|
    requires p < |t| ==> t[|t| - 1] == ','
    ensures !CommaTail(l[q..])
  {
    hide IsSpace;
    var last := |t| - 1;
    assert l[q..][last - q] == t[last] == l[last];
    assert !Blank(l[q..]);
    if last > q {
      assert l[q..][1..][last - q - 1] == l[last];
      assert !Blank(l[q..][1..]);
    }
  }

  lemma {:induction false} IndentExactly(l: string)
    ensures Indent(l) <= l && Blank(Indent(l)) && (|Indent(l)| < |l| ==> !IsSpace(l[|Indent(l)|]))
  {
    if l != [] && IsSpace(l[0]) { IndentExactly(l[1..]); }
  }

  lemma IndentSpaces(l: string)
    ensures |Indent(l)| <= |l| && forall k :: 0 <= k < |Indent(l)| ==> IsSpace(l[k])
  {
    IndentExactly(l);
    hide Indent, IsSpace;
    forall k | 0 <= k < |Indent(l)| ensures IsSpace(l[k]) { assert l[k] == Indent(l)[k]; }
  }

  /** A fence: three backquotes behind nothing but white space. */
  lemma FenceExactly(l: string)
    ensures IsFence(l) <==> exists n: nat :: Fenced(l, n)
  {
    IndentExactly(l);
    hide IsSpace, Indent;
    var n := |Indent(l)|;
    if IsFence(l) {
      assert l[n] == l[n..n + 3][0] && l[n + 1] == l[n..n + 3][1] && l[n + 2] == l[n..n + 3][2];
      assert forall k :: 0 <= k < n ==> l[k] == Indent(l)[k];
      assert Fenced(l, n);
    }
    if m: nat :| Fenced(l, m) {
      BackquoteIsNoSpace();
      IndentSpaces(l);
      assert n == m;
      assert l[n..n + 3] == "```";
    }
  }

  predicate Fenced(l: string, n: nat) {
    n + 3 <= |l| && (forall k :: 0 <= k < n ==> IsSpace(l[k])) && l[n] == '`' && l[n + 1] == '`' && l[n + 2] == '`'
  }

  lemma BackquoteIsNoSpace()
    ensures !IsSpace('`')
  {
  }

  /** The next line with anything on it, if there is one, goes on in the same object. */
  lemma MoreExactly(seg: seq<string>, i: nat)
    ensures More(seg, i) <==> exists j: nat, n: nat :: GoesOnAt(seg, i, j, n)
  {
    var next := NextWritten(seg, i + 1);
    hide IsSpace;
    if next.Some? {
      var l := seg[next.value];
      IndentExactly(l);
      var n := |Indent(l)|;
      hide Indent;
      WrittenAt(l);
      if More(seg, i) { assert GoesOnAt(seg, i, next.value, n); }
    }
    if j: nat, m: nat :| GoesOnAt(seg, i, j, m) {
      assert !Blank(seg[j]);
      assert next.Some? && next.value == j;
      IndentExactly(seg[j]);
      WrittenAt(seg[j]);
    }
  }

  lemma WrittenAt(l: string)
    requires !Blank(l)
    ensures |Indent(l)| < |l| && forall k :: 0 <= k < |Indent(l)| ==> IsSpace(l[k])
    ensures forall m: nat :: m < |l| && !IsSpace(l[m]) && (forall k :: 0 <= k < m ==> IsSpace(l[k])) ==>
              m == |Indent(l)|
  {
    IndentExactly(l);
    hide IsSpace, Indent;
    forall k | 0 <= k < |Indent(l)| ensures IsSpace(l[k]) { assert l[k] == Indent(l)[k]; }
  }

  /** Line `j` is the next one written behind line `i`, and its first character, at `n`, closes nothing. */
  predicate GoesOnAt(seg: seq<string>, i: nat, j: nat, n: nat) {
    && i < j < |seg| && (forall k :: i < k < j ==> Blank(seg[k]))
    && n < |seg[j]| && !IsSpace(seg[j][n]) && (forall k :: 0 <= k < n ==> IsSpace(seg[j][k]))
    && seg[j][n] != '}' && seg[j][n] != ']'
  }

  // ---------- A block's lines together ----------

  predicate OnlyWritten(seg: seq<string>, i: nat) {
    i < |seg| && !Blank(seg[i]) && forall j :: 0 <= j < |seg| && j != i ==> Blank(seg[j])
  }

  /** A block on one line is one with a single line written on: it is left to be done by hand. */
  lemma {:induction false} OneLineExactly(seg: seq<string>)
    ensures CountWritten(seg) == 0 <==> forall j :: 0 <= j < |seg| ==> Blank(seg[j])
    ensures CountWritten(seg) == 1 <==> exists i: nat :: OnlyWritten(seg, i)
  {
    hide Blank;
    if seg != [] {
      var tail := seg[1..];
      OneLineExactly(tail);
      assert forall j :: 0 < j < |seg| ==> seg[j] == tail[j - 1];
      if Blank(seg[0]) {
        if i: nat :| OnlyWritten(tail, i) { assert OnlyWritten(seg, i + 1); }
        if i: nat :| OnlyWritten(seg, i) { assert OnlyWritten(tail, i - 1); }
      } else {
        if forall j :: 0 <= j < |tail| ==> Blank(tail[j]) { assert OnlyWritten(seg, 0); }
        if i: nat :| OnlyWritten(seg, i) {
          forall j | 0 <= j < |tail| ensures Blank(tail[j]) { assert seg[j + 1] == tail[j]; }
        }
      }
    }
  }

  /** The text cut at its line breaks. */
  function Lines(s: string, open: string): seq<string>
    decreases |s|
  {
    if s == [] then [open]
    else if s[0] == '\n' then [open] + Lines(s[1..], [])
    else Lines(s[1..], open + [s[0]])
  }

  lemma {:induction false} LineRuns(l: string, rest: string, open: string)
    requires forall k :: 0 <= k < |l| ==> l[k] != '\n'
    ensures Lines(l + rest, open) == Lines(rest, open + l)
    decreases |l|
  {
    if l == [] {
      assert l + rest == rest && open + l == open;
    } else {
      assert (l + rest)[1..] == l[1..] + rest;
      LineRuns(l[1..], rest, open + [l[0]]);
      assert open + [l[0]] + l[1..] == open + l;
    }
  }

  /** Lines joined are the lines again when cut at the breaks. */
  lemma {:induction false} JoinExactly(lines: seq<string>)
    requires lines != [] && forall i, k :: 0 <= i < |lines| && 0 <= k < |lines[i]| ==> lines[i][k] != '\n'
    ensures Lines(Join(lines), []) == lines
  {
    var l := lines[0];
    if |lines| == 1 {
      LineRuns(l, [], []);
      assert l + [] == l && [] + l == l;
    } else {
      var rest := "\n" + Join(lines[1..]);
      LineRuns(l, rest, []);
      assert Join(lines) == l + rest && [] + l == l && rest[1..] == Join(lines[1..]);
      JoinExactly(lines[1..]);
    }
  }

  /** `"success"`, a colon and `false`, white space around the colon or none. */
  ghost predicate SaysFalse(s: string, before: string, gap: string, space: string, after: string) {
    && s == before + ("\"success\"" + gap + ":" + space + "false" + after)
    && (forall c :: c in gap ==> IsSpace(c)) && forall c :: c in space ==> IsSpace(c)
  }

  lemma SuccessFalseExactly(s: string)
    ensures SuccessFalse(s) <==> exists before, gap, space, after :: SaysFalse(s, before, gap, space, after)
  {
    hide SaysFalse, SuccessFalseAt;
    if SuccessFalse(s) {
      var p: nat, q: nat :| p < |s| && q < |s| && SuccessFalseAt(s, p, q);
      FalseSplits(s, p, q);
    }
    forall before, gap, space, after | SaysFalse(s, before, gap, space, after) ensures SuccessFalse(s) {
      FalseStands(s, before, gap, space, after);
    }
  }

  lemma FalseSplits(s: string, p: nat, q: nat)
    requires p < |s| && q < |s| && SuccessFalseAt(s, p, q)
    ensures exists before, gap, space, after :: SaysFalse(s, before, gap, space, after)
  {
    hide IsSpace, SaysFalse;
    var r: nat :| r < |s| && FalseAt(s, q + 1, r);
    SaysFalseAt(s, p, q, r);
  }

  lemma SaysFalseAt(s: string, p: nat, q: nat, r: nat)
    requires p + 9 <= q < r && r + 5 <= |s| && s[p..p + 9] == "\"success\"" && s[r..r + 5] == "false"
    requires ColonAt(s, p + 9, q) && FalseAt(s, q + 1, r)
    ensures SaysFalse(s, s[..p], s[p + 9..q], s[q + 1..r], s[r + 5..])
  {
    hide IsSpace;
    CutAll(s, p, q, r);
    GapsAreSpace(s, p, q, r);
    assert s[q] == ':';
    hide ColonAt, FalseAt;
  }

  lemma GapsAreSpace(s: string, p: nat, q: nat, r: nat)
    requires p + 9 <= q < r && r + 5 <= |s| && ColonAt(s, p + 9, q) && FalseAt(s, q + 1, r)
    ensures (forall c :: c in s[p + 9..q] ==> IsSpace(c)) && forall c :: c in s[q + 1..r] ==> IsSpace(c)
  {
    hide IsSpace;
  }

  lemma CutAll(s: string, p: nat, q: nat, r: nat)
    requires p + 9 <= q < r && r + 5 <= |s|
    ensures s == s[..p] + (s[p..p + 9] + s[p + 9..q] + [s[q]] + s[q + 1..r] + s[r..r + 5] + s[r + 5..])
  {
    assert s[p..q] == s[p..p + 9] + s[p + 9..q];
    assert s[q..r] == [s[q]] + s[q + 1..r];
    assert s[r..] == s[r..r + 5] + s[r + 5..];
    assert s == s[..p] + (s[p..q] + s[q..r] + s[r..]);
  }

  lemma FalseStands(s: string, before: string, gap: string, space: string, after: string)
    requires SaysFalse(s, before, gap, space, after)
    ensures SuccessFalse(s)
  {
    hide IsSpace;
    var p, q := |before|, |before| + 9 + |gap|;
    var r := q + 1 + |space|;
    assert |Quoted("success")| == 9;
    assert s[p..p + 9] == Quoted("success");
    assert s[q] == ':' && s[r..r + 5] == "false";
    assert forall k :: p + 9 <= k < q ==> s[k] == gap[k - p - 9];
    assert forall k :: q + 1 <= k < r ==> s[k] == space[k - q - 1];
    assert ColonAt(s, p + 9, q) && FalseAt(s, q + 1, r);
    assert SuccessFalseAt(s, p, q);
  }
}
