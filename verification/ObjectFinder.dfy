/** The pass that writes the missing `access` into every file detail a page shows: find the innermost
    object round each `"mimeType"` key, decide, and insert in front of the key, last edit first. */
module ObjectFinder {
  import opened Options
  import opened JsText

  // ---------- Braces ----------

  /** How many braces are open before position `n`. */
  function Depth(text: string, n: nat): int
    requires n <= |text|
  {
    if n == 0 then 0
    else Depth(text, n - 1) + if text[n - 1] == '{' then 1 else if text[n - 1] == '}' then -1 else 0
  }

  /** The brace at `a` is closed by the brace at `b`, and by none before it. */
  ghost predicate Matched(text: string, a: nat, b: nat) {
    && a < b < |text| && text[a] == '{' && text[b] == '}'
    && Depth(text, b + 1) == Depth(text, a)
    && forall k :: a < k <= b ==> Depth(text, k) > Depth(text, a)
  }

  ghost predicate Around(text: string, i: nat, a: nat, b: nat) {
    Matched(text, a, b) && a <= i < b
  }

  /** `(a, b)` is the smallest object round `i`: every other one holds it. */
  ghost predicate Innermost(text: string, i: nat, a: nat, b: nat) {
    Around(text, i, a, b) && forall c: nat, d: nat :: Around(text, i, c, d) ==> c <= a && b <= d
  }

  ghost predicate NoObject(text: string, i: nat) {
    forall a: nat, b: nat :: !Around(text, i, a, b)
  }

  /** The last brace still open at `i`: nothing between it and `i` is as shallow. */
  ghost predicate LastOpen(text: string, i: nat, open: nat) {
    && open <= i < |text| && text[open] == '{'
    && (forall k :: open < k <= i + 1 ==> Depth(text, k) > Depth(text, open))
    && forall k :: open < k <= i + 1 ==> Depth(text, k) >= Depth(text, i + 1)
  }

  lemma NothingOpen(text: string, i: nat)
    requires i < |text| && forall k :: 0 <= k <= i + 1 ==> Depth(text, k) >= Depth(text, i + 1)
    ensures NoObject(text, i)
  {
    forall a: nat, b: nat ensures !Around(text, i, a, b) {
      if a <= i < |text| { assert Depth(text, a) >= Depth(text, i + 1); }
    }
  }

  /** Any object round `i` opens no later than the last open brace, and if earlier closes after `i`'s. */
  lemma OpensNoLater(text: string, i: nat, open: nat, a: nat, b: nat)
    requires LastOpen(text, i, open) && Around(text, i, a, b)
    ensures a <= open
  {
  }

  lemma NeverCloses(text: string, i: nat, open: nat)
    requires LastOpen(text, i, open)
    requires forall k :: open < k <= |text| ==> Depth(text, k) > Depth(text, open)
    ensures NoObject(text, i)
  {
    forall a: nat, b: nat ensures !Around(text, i, a, b) {
      if Around(text, i, a, b) {
        OpensNoLater(text, i, open, a, b);
        assert false;
      }
    }
  }

  lemma ClosesFirst(text: string, i: nat, open: nat, close: nat)
    requires LastOpen(text, i, open) && Matched(text, open, close)
    ensures Innermost(text, i, open, close)
  {
    forall c: nat, d: nat | Around(text, i, c, d) ensures c <= open && close <= d {
      OpensNoLater(text, i, open, c, d);
    }
  }

  /** Scan back for the last open brace, then forward for its match. */
  method EnclosingObject(text: string, i: nat) returns (range: Option<(nat, nat)>)
    requires i < |text|
    ensures range.None? ==> NoObject(text, i)
    ensures range.Some? ==> Innermost(text, i, range.value.0, range.value.1)
  {
    hide Matched, Around, Innermost, NoObject;
    var depth := 0;
    var open := -1;
    var p: int := i;
    while p >= 0
      invariant -1 <= p <= i
      invariant depth == Depth(text, p + 1) - Depth(text, i + 1)
      invariant forall k :: p < k <= i + 1 ==> Depth(text, k) >= Depth(text, i + 1)
      invariant open == -1
    {
      var c := text[p];
      if c == '}' {
        depth := depth + 1;
      } else if c == '{' {
        if depth == 0 {
          open := p;
          break;
        }
        depth := depth - 1;
      }
      p := p - 1;
    }
    if open == -1 {
      NothingOpen(text, i);
      return None;
    }
    assert LastOpen(text, i, open);
    depth := 0;
    p := open;
    while p < |text|
      invariant open <= p <= |text|
      invariant depth == Depth(text, p) - Depth(text, open)
      invariant forall k :: open < k <= p ==> Depth(text, k) > Depth(text, open)
    {
      var c := text[p];
      if c == '{' {
        depth := depth + 1;
      } else if c == '}' {
        depth := depth - 1;
        if depth == 0 {
          Closes(text, open, p);
          ClosesFirst(text, i, open, p);
          return Some((open, p));
        }
      }
      p := p + 1;
    }
    NeverCloses(text, i, open);
    return None;
  }

  lemma Closes(text: string, open: nat, p: nat)
    requires open < p < |text| && text[open] == '{' && text[p] == '}'
    requires Depth(text, p + 1) == Depth(text, open)
    requires forall k :: open < k <= p ==> Depth(text, k) > Depth(text, open)
    ensures Matched(text, open, p)
  {
  }

  // ---------- Inserting text ----------

  datatype Edit = Edit(at: nat, insert: string)

  function InsertOne(text: string, e: Edit): (r: string)
    requires e.at <= |text|
    ensures |r| == |text| + |e.insert|
  {
    text[..e.at] + e.insert + text[e.at..]
  }

  /** The edits lie in the text, each further on than the one before. */
  predicate Ascending(text: string, edits: seq<Edit>) {
    && (forall i :: 0 <= i < |edits| ==> edits[i].at <= |text|)
    && forall i, j :: 0 <= i < j < |edits| ==> edits[i].at < edits[j].at
  }

  /** Last edit first. */
  function Applied(text: string, edits: seq<Edit>): (r: string)
    requires Ascending(text, edits)
    ensures |r| >= |text|
  {
    if edits == [] then text else InsertOne(Applied(text, edits[1..]), edits[0])
  }

  /** What goes in front of position `p`. */
  function InsertAt(edits: seq<Edit>, p: nat): string {
    if edits == [] then [] else (if edits[0].at == p then edits[0].insert else []) + InsertAt(edits[1..], p)
  }

  /** All the edits at once: every character of the text, each after what goes in front of it. */
  function Woven(text: string, edits: seq<Edit>, n: nat): string
    requires n <= |text|
  {
    if n == 0 then [] else Woven(text, edits, n - 1) + Cell(text, edits, n - 1)
  }

  function Cell(text: string, edits: seq<Edit>, n: nat): string
    requires n < |text|
  {
    InsertAt(edits, n) + [text[n]]
  }

  function Simultaneous(text: string, edits: seq<Edit>): string {
    Woven(text, edits, |text|) + InsertAt(edits, |text|)
  }

  lemma {:induction false} NothingAt(edits: seq<Edit>, p: nat)
    requires forall i :: 0 <= i < |edits| ==> edits[i].at != p
    ensures InsertAt(edits, p) == []
  {
    if edits != [] { NothingAt(edits[1..], p); }
  }

  lemma {:induction false} WovenUntouched(text: string, edits: seq<Edit>, n: nat)
    requires n <= |text| && forall i :: 0 <= i < |edits| ==> edits[i].at >= n
    ensures Woven(text, edits, n) == text[..n]
  {
    if n > 0 {
      WovenUntouched(text, edits, n - 1);
      NothingAt(edits, n - 1);
    }
  }

  /** The first edit's text lands where its position says, whatever the later edits put behind it. */
  predicate FirstLands(text: string, edits: seq<Edit>, n: nat)
    requires edits != [] && n <= |text|
  {
    edits[0].at <= |Woven(text, edits[1..], n)| &&
    Woven(text, edits, n) == InsertOne(Woven(text, edits[1..], n), edits[0])
  }

  lemma {:induction false} WovenFirst(text: string, edits: seq<Edit>, n: nat)
    requires Ascending(text, edits) && edits != [] && edits[0].at < n <= |text|
    ensures FirstLands(text, edits, n)
    decreases n
  {
    hide FirstLands;
    if n == edits[0].at + 1 {
      WovenAtFirst(text, edits);
    } else {
      WovenFirst(text, edits, n - 1);
      LandsStep(text, edits, n - 1);
    }
  }

  lemma LandsStep(text: string, edits: seq<Edit>, n: nat)
    requires edits != [] && edits[0].at < n < |text| && FirstLands(text, edits, n)
    ensures FirstLands(text, edits, n + 1)
  {
    hide Woven, Cell, InsertOne;
    SameCell(text, edits, n);
    WovenStep(text, edits, n);
    WovenStep(text, edits[1..], n);
    Chained(Woven(text, edits[1..], n), Cell(text, edits, n), Woven(text, edits[1..], n + 1),
            Woven(text, edits, n), Woven(text, edits, n + 1), edits[0]);
  }

  lemma Chained(before: string, cell: string, rest: string, landed: string, whole: string, e: Edit)
    requires e.at <= |before| && landed == InsertOne(before, e) && rest == before + cell && whole == landed + cell
    ensures e.at <= |rest| && whole == InsertOne(rest, e)
  {
    InsertBefore(before, cell, e);
  }

  lemma SameCell(text: string, edits: seq<Edit>, n: nat)
    requires n < |text| && edits != [] && edits[0].at != n
    ensures Cell(text, edits, n) == Cell(text, edits[1..], n)
  {
    LaterOnly(edits, n);
  }

  lemma LaterOnly(edits: seq<Edit>, p: nat)
    requires edits != [] && edits[0].at != p
    ensures InsertAt(edits, p) == InsertAt(edits[1..], p)
  {
  }

  lemma WovenAtFirst(text: string, edits: seq<Edit>)
    requires Ascending(text, edits) && edits != [] && edits[0].at < |text|
    ensures FirstLands(text, edits, edits[0].at + 1)
  {
    var e, late := edits[0], edits[1..];
    WovenStep(text, edits, e.at);
    WovenUntouched(text, edits, e.at);
    WovenUntouched(text, late, e.at + 1);
    NothingAt(late, e.at);
    assert InsertAt(edits, e.at) == e.insert;
    hide Woven, InsertAt, InsertOne, Ascending;
    InsertLast(text, e);
  }

  lemma InsertLast(text: string, e: Edit)
    requires e.at < |text|
    ensures InsertOne(text[..e.at + 1], e) == text[..e.at] + (e.insert + [text[e.at]])
  {
    assert text[..e.at + 1][..e.at] == text[..e.at] && text[..e.at + 1][e.at..] == [text[e.at]];
  }

  lemma WovenStep(text: string, edits: seq<Edit>, n: nat)
    requires n < |text|
    ensures Woven(text, edits, n + 1) == Woven(text, edits, n) + Cell(text, edits, n)
  {
    hide Cell;
  }

  lemma InsertBefore(text: string, more: string, e: Edit)
    requires e.at <= |text|
    ensures InsertOne(text + more, e) == InsertOne(text, e) + more
  {
    assert (text + more)[e.at..] == text[e.at..] + more;
  }

  /** Applying the edits one by one, last first, is inserting them all at once. */
  lemma {:induction false} AppliedIsSimultaneous(text: string, edits: seq<Edit>)
    requires Ascending(text, edits)
    ensures Applied(text, edits) == Simultaneous(text, edits)
  {
    if edits == [] {
      WovenUntouched(text, edits, |text|);
    } else {
      var e, late := edits[0], edits[1..];
      AppliedIsSimultaneous(text, late);
      if e.at < |text| {
        WovenFirst(text, edits, |text|);
        LaterOnly(edits, |text|);
        hide Woven, InsertAt, InsertOne;
        InsertBefore(Woven(text, late, |text|), InsertAt(late, |text|), e);
      } else {
        assert late == [];
        WovenUntouched(text, edits, |text|);
        WovenUntouched(text, late, |text|);
        assert InsertAt(edits, |text|) == e.insert;
      }
    }
  }

  /** `edits.sort((a, b) => b.at - a.at)`. */
  function SortedLastFirst(edits: seq<Edit>): seq<Edit> {
    if edits == [] then [] else PutLastFirst(edits[0], SortedLastFirst(edits[1..]))
  }

  function PutLastFirst(e: Edit, edits: seq<Edit>): seq<Edit> {
    if edits == [] || edits[0].at <= e.at then [e] + edits else [edits[0]] + PutLastFirst(e, edits[1..])
  }

  ghost predicate FromLast(edits: seq<Edit>) {
    forall i, j :: 0 <= i < j < |edits| ==> edits[i].at >= edits[j].at
  }

  /** Whatever order the edits are in, the sort keeps them all and puts none behind a later place. */
  lemma {:induction false} SortsLastFirst(edits: seq<Edit>)
    ensures multiset(SortedLastFirst(edits)) == multiset(edits)
    ensures FromLast(SortedLastFirst(edits))
  {
    if edits != [] {
      SortsLastFirst(edits[1..]);
      assert edits == [edits[0]] + edits[1..];
      PutKeepsAll(edits[0], SortedLastFirst(edits[1..]));
      PutKeepsOrder(edits[0], SortedLastFirst(edits[1..]));
    }
  }

  lemma {:induction false} PutKeepsAll(e: Edit, edits: seq<Edit>)
    ensures multiset(PutLastFirst(e, edits)) == multiset{e} + multiset(edits)
  {
    if edits != [] {
      assert edits == [edits[0]] + edits[1..];
      PutKeepsAll(e, edits[1..]);
    }
  }

  lemma {:induction false} PutUpTo(e: Edit, edits: seq<Edit>, n: int)
    requires e.at <= n && forall i :: 0 <= i < |edits| ==> edits[i].at <= n
    ensures forall i :: 0 <= i < |PutLastFirst(e, edits)| ==> PutLastFirst(e, edits)[i].at <= n
  {
    if edits != [] { PutUpTo(e, edits[1..], n); }
  }

  lemma {:induction false} PutKeepsOrder(e: Edit, edits: seq<Edit>)
    requires FromLast(edits)
    ensures FromLast(PutLastFirst(e, edits))
  {
    if edits != [] && edits[0].at > e.at {
      PutKeepsOrder(e, edits[1..]);
      PutUpTo(e, edits[1..], edits[0].at);
    }
  }

  function Reversed(edits: seq<Edit>): (r: seq<Edit>)
    ensures |r| == |edits| && forall i :: 0 <= i < |r| ==> r[i] == edits[|edits| - 1 - i]
  {
    if edits == [] then [] else Reversed(edits[1..]) + [edits[0]]
  }

  lemma {:induction false} PutLast(e: Edit, edits: seq<Edit>)
    requires forall i :: 0 <= i < |edits| ==> e.at < edits[i].at
    ensures PutLastFirst(e, edits) == edits + [e]
  {
    if edits != [] { PutLast(e, edits[1..]); }
  }

  lemma {:induction false} SortReverses(text: string, edits: seq<Edit>)
    requires Ascending(text, edits)
    ensures SortedLastFirst(edits) == Reversed(edits)
  {
    if edits != [] {
      SortReverses(text, edits[1..]);
      PutLast(edits[0], Reversed(edits[1..]));
    }
  }

  method ApplyEdits(text: string, edits: seq<Edit>) returns (out: string)
    requires Ascending(text, edits)
    ensures out == Simultaneous(text, edits)
  {
    var sorted := SortedLastFirst(edits);
    SortReverses(text, edits);
    out := text;
    var n := |edits|;
    for i := 0 to n
      invariant out == Applied(text, edits[n - i..])
    {
      assert sorted[i] == edits[n - i - 1] && edits[n - i - 1..][1..] == edits[n - i..];
      var e := sorted[i];
      out := out[..e.at] + e.insert + out[e.at..];
    }
    assert edits[0..] == edits;
    AppliedIsSimultaneous(text, edits);
  }

  /** Taking the inserted texts out again, the first one first. */
  function Removed(text: string, edits: seq<Edit>): string
    decreases |edits|
  {
    if edits == [] then text
    else
      var e := edits[0];
      if e.at + |e.insert| <= |text| then Removed(text[..e.at] + text[e.at + |e.insert|..], edits[1..]) else text
  }

  lemma {:induction false} RemovingRestores(text: string, edits: seq<Edit>)
    requires Ascending(text, edits)
    ensures Removed(Simultaneous(text, edits), edits) == text
  {
    AppliedIsSimultaneous(text, edits);
    if edits != [] {
      var e, rest := edits[0], Applied(text, edits[1..]);
      var out := InsertOne(rest, e);
      assert out[..e.at] + out[e.at + |e.insert|..] == rest;
      RemovingRestores(text, edits[1..]);
      AppliedIsSimultaneous(text, edits[1..]);
    }
  }

  // ---------- Where things are afterwards ----------

  function InsertedBy(edits: seq<Edit>, p: nat): nat {
    if edits == [] then 0 else (if edits[0].at <= p then |edits[0].insert| else 0) + InsertedBy(edits[1..], p)
  }

  /** The character at `p` moves on by all that was inserted at or before it. */
  function Shift(edits: seq<Edit>, p: nat): nat {
    p + InsertedBy(edits, p)
  }

  function ShiftOne(e: Edit, p: nat): nat {
    if p < e.at then p else p + |e.insert|
  }

  lemma {:induction false} NothingBefore(edits: seq<Edit>, p: nat)
    requires forall i :: 0 <= i < |edits| ==> p < edits[i].at
    ensures InsertedBy(edits, p) == 0
  {
    if edits != [] { NothingBefore(edits[1..], p); }
  }

  lemma ShiftStep(text: string, edits: seq<Edit>, p: nat)
    requires Ascending(text, edits) && edits != []
    ensures Shift(edits, p) == ShiftOne(edits[0], Shift(edits[1..], p))
  {
    if p < edits[0].at { NothingBefore(edits[1..], p); }
  }

  predicate NoBraces(s: string) {
    forall i :: 0 <= i < |s| ==> s[i] != '{' && s[i] != '}'
  }

  predicate Braceless(edits: seq<Edit>) {
    forall i :: 0 <= i < |edits| ==> NoBraces(edits[i].insert)
  }

  function Back(e: Edit, k: nat): nat {
    if k <= e.at then k else if k <= e.at + |e.insert| then e.at else k - |e.insert|
  }

  lemma {:induction false} DepthKept(text: string, e: Edit, k: nat)
    requires e.at <= |text| && NoBraces(e.insert) && k <= |InsertOne(text, e)|
    ensures Depth(InsertOne(text, e), k) == Depth(text, Back(e, k))
  {
    if k > 0 {
      DepthKept(text, e, k - 1);
      var out := InsertOne(text, e);
      assert k <= e.at ==> out[k - 1] == text[k - 1];
      assert e.at < k <= e.at + |e.insert| ==> out[k - 1] == e.insert[k - 1 - e.at];
      assert e.at + |e.insert| < k ==> out[k - 1] == text[k - 1 - |e.insert|];
    }
  }

  lemma CharKept(text: string, e: Edit, p: nat)
    requires e.at <= |text| && p < |text|
    ensures ShiftOne(e, p) < |InsertOne(text, e)| && InsertOne(text, e)[ShiftOne(e, p)] == text[p]
  {
  }

  lemma BraceKept(text: string, e: Edit, q: nat) returns (p: nat)
    requires e.at <= |text| && NoBraces(e.insert) && q < |InsertOne(text, e)|
    requires InsertOne(text, e)[q] == '{' || InsertOne(text, e)[q] == '}'
    ensures p < |text| && q == ShiftOne(e, p)
  {
    assert forall k :: 0 <= k < |e.insert| ==> InsertOne(text, e)[e.at + k] == e.insert[k];
    assert q >= e.at ==> InsertOne(text, e)[e.at + (q - e.at)] == InsertOne(text, e)[q];
    p := if q < e.at then q else q - |e.insert|;
  }

  lemma MatchKept(text: string, e: Edit, a: nat, b: nat)
    requires e.at <= |text| && NoBraces(e.insert) && a < |text| && b < |text|
    ensures Matched(text, a, b) <==> Matched(InsertOne(text, e), ShiftOne(e, a), ShiftOne(e, b))
  {
    var out, c, d := InsertOne(text, e), ShiftOne(e, a), ShiftOne(e, b);
    CharKept(text, e, a);
    CharKept(text, e, b);
    DepthKept(text, e, c);
    DepthKept(text, e, d + 1);
    hide Depth, InsertOne;
    if a < b && Depth(text, b + 1) == Depth(text, a) {
      if Matched(text, a, b) {
        forall k | c < k <= d ensures Depth(out, k) > Depth(out, c) {
          DepthKept(text, e, k);
          assert a < Back(e, k) <= b;
        }
      }
      if Matched(out, c, d) {
        forall k | a < k <= b ensures Depth(text, k) > Depth(text, a) {
          var j := if k <= e.at then k else k + |e.insert|;
          DepthKept(text, e, j);
          assert c < j <= d && Back(e, j) == k;
        }
      }
    }
  }

  lemma AroundKept(text: string, e: Edit, i: nat, a: nat, b: nat)
    requires e.at <= |text| && NoBraces(e.insert) && a < |text| && b < |text|
    ensures Around(text, i, a, b) <==> Around(InsertOne(text, e), ShiftOne(e, i), ShiftOne(e, a), ShiftOne(e, b))
  {
    MatchKept(text, e, a, b);
    hide Matched;
  }

  lemma AroundComesFrom(text: string, e: Edit, i: nat, c: nat, d: nat) returns (a: nat, b: nat)
    requires e.at <= |text| && NoBraces(e.insert)
    requires Around(InsertOne(text, e), ShiftOne(e, i), c, d)
    ensures a < |text| && b < |text| && c == ShiftOne(e, a) && d == ShiftOne(e, b) && Around(text, i, a, b)
  {
    a := BraceKept(text, e, c);
    b := BraceKept(text, e, d);
    AroundKept(text, e, i, a, b);
  }

  lemma InnermostKept(text: string, e: Edit, i: nat, a: nat, b: nat)
    requires e.at <= |text| && NoBraces(e.insert) && a < |text| && b < |text|
    ensures Innermost(text, i, a, b) <==> Innermost(InsertOne(text, e), ShiftOne(e, i), ShiftOne(e, a), ShiftOne(e, b))
  {
    var out, j := InsertOne(text, e), ShiftOne(e, i);
    AroundKept(text, e, i, a, b);
    hide Around, InsertOne;
    if Innermost(text, i, a, b) {
      forall c: nat, d: nat | Around(out, j, c, d) ensures c <= ShiftOne(e, a) && ShiftOne(e, b) <= d {
        var x, y := AroundComesFrom(text, e, i, c, d);
        assert x <= a && b <= y;
      }
    }
    if Innermost(out, j, ShiftOne(e, a), ShiftOne(e, b)) {
      forall c: nat, d: nat | Around(text, i, c, d) ensures c <= a && b <= d {
        AroundInside(text, i, c, d);
        AroundKept(text, e, i, c, d);
        assert ShiftOne(e, c) <= ShiftOne(e, a) && ShiftOne(e, b) <= ShiftOne(e, d);
      }
    }
  }

  lemma AroundInside(text: string, i: nat, a: nat, b: nat)
    requires Around(text, i, a, b)
    ensures a <= i < b < |text|
  {
  }

  /** No edit changes which object holds another place: the object round a character afterwards is the
      one that was round it before, moved with its characters. */
  lemma {:induction false} EditsKeepObjects(text: string, edits: seq<Edit>, i: nat, c: nat, d: nat)
    requires Ascending(text, edits) && Braceless(edits)
    ensures Innermost(Applied(text, edits), Shift(edits, i), c, d) <==>
            exists a: nat, b: nat :: Innermost(text, i, a, b) && c == Shift(edits, a) && d == Shift(edits, b)
  {
    if edits == [] {
      assert Shift(edits, i) == i && Shift(edits, c) == c && Shift(edits, d) == d;
    } else {
      var e, rest := edits[0], Applied(text, edits[1..]);
      ShiftStep(text, edits, i);
      hide Innermost, Shift;
      if Innermost(InsertOne(rest, e), Shift(edits, i), c, d) {
        var x, y := InnermostComesFrom(rest, e, Shift(edits[1..], i), c, d);
        EditsKeepObjects(text, edits[1..], i, x, y);
        var a: nat, b: nat :| Innermost(text, i, a, b) && x == Shift(edits[1..], a) && y == Shift(edits[1..], b);
        ShiftStep(text, edits, a);
        ShiftStep(text, edits, b);
      }
      forall a: nat, b: nat | Innermost(text, i, a, b) && c == Shift(edits, a) && d == Shift(edits, b)
        ensures Innermost(Applied(text, edits), Shift(edits, i), c, d)
      {
        var x, y := Shift(edits[1..], a), Shift(edits[1..], b);
        ShiftStep(text, edits, a);
        ShiftStep(text, edits, b);
        EditsKeepObjects(text, edits[1..], i, x, y);
        InnermostInside(rest, Shift(edits[1..], i), x, y);
        InnermostKept(rest, e, Shift(edits[1..], i), x, y);
      }
    }
  }

  lemma InnermostInside(text: string, i: nat, a: nat, b: nat)
    requires Innermost(text, i, a, b)
    ensures a <= i < b < |text|
  {
  }

  lemma InnermostComesFrom(text: string, e: Edit, i: nat, c: nat, d: nat) returns (a: nat, b: nat)
    requires e.at <= |text| && NoBraces(e.insert)
    requires Innermost(InsertOne(text, e), ShiftOne(e, i), c, d)
    ensures c == ShiftOne(e, a) && d == ShiftOne(e, b) && Innermost(text, i, a, b)
  {
    a, b := AroundComesFrom(text, e, i, c, d);
    InnermostKept(text, e, i, a, b);
  }

  // ---------- Which keys are there ----------

  const RAW_RECORD_MARKERS := ["provider", "checksum", "usageCount", "ownerType", "ownerId"]

  datatype Access = Public | Authorized

  function AccessName(access: Access): string {
    if access.Public? then "public" else "authorized"
  }

  /** What the object's text says its `access` should be; no answer where the pass leaves it alone.
      `access` stands for the stored key and the storage census, which refuses a key it cannot class. */
  function Verdict(obj: string, access: string -> Option<Access>): Option<Access> {
    if exists i :: 0 <= i < |RAW_RECORD_MARKERS| && HasKey(obj, RAW_RECORD_MARKERS[i]) then None
    else if !HasKey(obj, "id") || !HasKey(obj, "key") then None
    else if HasKey(obj, "access") then None
    else access(obj)
  }

  function LineStart(text: string, at: nat): (n: nat)
    requires at <= |text|
    ensures n <= at
  {
    if at == 0 then 0 else if text[at - 1] == '\n' then at else LineStart(text, at - 1)
  }

  /** In front of the key; alone on its line, the key's indentation is repeated. */
  function AccessText(text: string, at: nat, access: Access): string
    requires at <= |text|
  {
    var before := text[LineStart(text, at)..at];
    if !Blank(before) then "\"access\": \"" + AccessName(access) + "\", "
    else "\"access\": \"" + AccessName(access) + "\",\n" + before
  }

  const SITE := "mimeType"

  /** The object's text, both braces in it. */
  function Slice(text: string, a: nat, b: nat): string
    requires a <= b < |text|
  {
    text[a..b + 1]
  }

  /** The pass inserts `insert` at `at`. */
  ghost predicate Wanted(text: string, access: string -> Option<Access>, e: Edit) {
    e.at < |text| && KeyAt(text, SITE, e.at)
    && exists a: nat, b: nat :: WantedIn(text, access, e, a, b)
  }

  ghost predicate WantedIn(text: string, access: string -> Option<Access>, e: Edit, a: nat, b: nat) {
    && e.at < |text| && a <= b < |text| && Innermost(text, e.at, a, b)
    && Verdict(Slice(text, a, b), access).Some?
    && e.insert == AccessText(text, e.at, Verdict(Slice(text, a, b), access).value)
  }

  /** An object that shows a file's detail without its access: neither a stored record nor a narrower type. */
  ghost predicate LacksAccess(obj: string) {
    && (forall k :: k in {"provider", "checksum", "usageCount", "ownerType", "ownerId", "access"} ==> !HasKey(obj, k))
    && HasKey(obj, "id") && HasKey(obj, "key")
  }

  lemma VerdictExactly(obj: string, access: string -> Option<Access>)
    ensures Verdict(obj, access) == if LacksAccess(obj) then access(obj) else None
  {
    hide HasKey;
    var marked := exists i :: 0 <= i < |RAW_RECORD_MARKERS| && HasKey(obj, RAW_RECORD_MARKERS[i]);
    if HasKey(obj, "provider") { assert HasKey(obj, RAW_RECORD_MARKERS[0]); }
    if HasKey(obj, "checksum") { assert HasKey(obj, RAW_RECORD_MARKERS[1]); }
    if HasKey(obj, "usageCount") { assert HasKey(obj, RAW_RECORD_MARKERS[2]); }
    if HasKey(obj, "ownerType") { assert HasKey(obj, RAW_RECORD_MARKERS[3]); }
    if HasKey(obj, "ownerId") { assert HasKey(obj, RAW_RECORD_MARKERS[4]); }
  }

  /** The line that holds place `at` begins at `n`. */
  ghost predicate BeginsLine(text: string, n: nat, at: nat) {
    n <= at <= |text| && (n == 0 || text[n - 1] == '\n') && forall k :: n <= k < at ==> text[k] != '\n'
  }

  lemma {:induction false} LineStartIs(text: string, at: nat)
    requires at <= |text|
    ensures BeginsLine(text, LineStart(text, at), at)
  {
    if at > 0 && text[at - 1] != '\n' { LineStartIs(text, at - 1); }
  }

  /** The member that goes in: on the key's own line when something stands in front of the key there, else on a line
      of its own at the key's indentation. */
  lemma AccessTextExactly(text: string, at: nat, access: Access, n: nat)
    requires BeginsLine(text, n, at)
    ensures var member := "\"access\": " + if access == Public then "\"public\"," else "\"authorized\",";
            AccessText(text, at, access)
            == if exists k :: n <= k < at && !IsSpace(text[k]) then member + " " else member + "\n" + text[n..at]
  {
    LineStartIs(text, at);
    assert LineStart(text, at) == n;
    var before := text[n..at];
    assert Blank(before) <==> forall k :: n <= k < at ==> IsSpace(text[k]) by {
      if Blank(before) {
        forall k | n <= k < at ensures IsSpace(text[k]) { assert before[k - n] == text[k]; }
      }
    }
    MemberText(access);
  }

  lemma MemberText(access: Access)
    ensures "\"access\": \"" + AccessName(access) + "\"," ==
            "\"access\": " + if access == Public then "\"public\"," else "\"authorized\","
    ensures "\"access\": \"" + AccessName(access) + "\", " == "\"access\": \"" + AccessName(access) + "\"," + " "
    ensures "\"access\": \"" + AccessName(access) + "\",\n" == "\"access\": \"" + AccessName(access) + "\"," + "\n"
  {
  }

  /** What the pass inserts, and where. */
  ghost predicate Asked(text: string, access: string -> Option<Access>, e: Edit) {
    && e.at < |text| && KeyAt(text, "mimeType", e.at)
    && exists a: nat, b: nat :: b < |text| && Innermost(text, e.at, a, b) && AskedIn(text, access, e, a, b)
  }

  ghost predicate AskedIn(text: string, access: string -> Option<Access>, e: Edit, a: nat, b: nat)
    requires e.at < |text| && a < b < |text|
  {
    var obj := text[a..b + 1];
    && LacksAccess(obj) && access(obj).Some?
    && forall n: nat :: BeginsLine(text, n, e.at) ==>
         var member := "\"access\": " + if access(obj).value == Public then "\"public\"," else "\"authorized\",";
         e.insert ==
           if exists k :: n <= k < e.at && !IsSpace(text[k]) then member + " " else member + "\n" + text[n..e.at]
  }

  lemma AskedInExactly(text: string, access: string -> Option<Access>, e: Edit, a: nat, b: nat)
    requires e.at < |text| && a < b < |text| && Innermost(text, e.at, a, b)
    ensures WantedIn(text, access, e, a, b) <==> AskedIn(text, access, e, a, b)
  {
    var obj := Slice(text, a, b);
    VerdictExactly(obj, access);
    var n := LineStart(text, e.at);
    LineStartIs(text, e.at);
    hide Verdict, LacksAccess, Innermost, AccessText, LineStart, BeginsLine;
    forall m: nat | BeginsLine(text, m, e.at) ensures m == n { OneBeginning(text, m, n, e.at); }
    if access(obj).Some? { AccessTextExactly(text, e.at, access(obj).value, n); }
  }

  lemma OneBeginning(text: string, m: nat, n: nat, at: nat)
    requires BeginsLine(text, m, at) && BeginsLine(text, n, at)
    ensures m == n
  {
  }

  /** The wanted edits: in front of each mime type whose innermost object is a file's detail without its access and
      with a key that can be classed. */
  lemma WantedExactly(text: string, access: string -> Option<Access>, e: Edit)
    ensures Wanted(text, access, e) <==> Asked(text, access, e)
  {
    hide KeyAt, WantedIn, AskedIn;
    forall a: nat, b: nat | e.at < |text| && a < b < |text| && Innermost(text, e.at, a, b)
      ensures WantedIn(text, access, e, a, b) <==> AskedIn(text, access, e, a, b)
    {
      AskedInExactly(text, access, e, a, b);
    }
    forall a: nat, b: nat | WantedIn(text, access, e, a, b) ensures b < |text| && Innermost(text, e.at, a, b) {
      WantedInside(text, access, e, a, b);
    }
    forall a: nat, b: nat | Innermost(text, e.at, a, b) ensures a < b {
    }
  }

  lemma WantedInside(text: string, access: string -> Option<Access>, e: Edit, a: nat, b: nat)
    requires WantedIn(text, access, e, a, b)
    ensures b < |text| && Innermost(text, e.at, a, b)
  {
  }

  /** The edits of the places below `n`: exactly the wanted ones, in order. */
  ghost predicate EditsUpTo(text: string, access: string -> Option<Access>, edits: seq<Edit>, n: nat) {
    && Ascending(text, edits)
    && forall e: Edit :: e in edits <==> e.at < n && Wanted(text, access, e)
  }

  method CollectEdits(text: string, access: string -> Option<Access>) returns (edits: seq<Edit>)
    ensures EditsUpTo(text, access, edits, |text|)
  {
    hide KeyAt, Verdict, Innermost, NoObject, AccessText;
    edits := [];
    for p := 0 to |text|
      invariant EditsUpTo(text, access, edits, p)
    {
      if KeyAt(text, SITE, p) {
        var range := EnclosingObject(text, p);
        if range.Some? {
          var (a, b) := range.value;
          InnermostInside(text, p, a, b);
          var verdict := Verdict(Slice(text, a, b), access);
          if verdict.Some? {
            var e := Edit(p, AccessText(text, p, verdict.value));
            EditHere(text, access, e, a, b);
            edits := edits + [e];
          } else {
            NoVerdict(text, access, p, a, b);
          }
        } else {
          NoEdit(text, access, p);
        }
      }
    }
  }

  lemma EditHere(text: string, access: string -> Option<Access>, e: Edit, a: nat, b: nat)
    requires WantedIn(text, access, e, a, b) && KeyAt(text, SITE, e.at)
    ensures Wanted(text, access, e) && forall d: Edit :: d.at == e.at && Wanted(text, access, d) ==> d == e
  {
    hide KeyAt, Verdict, AccessText;
    forall d: Edit | d.at == e.at && Wanted(text, access, d) ensures d == e {
      var c: nat, f: nat :| WantedIn(text, access, d, c, f);
      OneInnermost(text, e.at, a, b, c, f);
    }
  }

  lemma OneInnermost(text: string, i: nat, a: nat, b: nat, c: nat, d: nat)
    requires Innermost(text, i, a, b) && Innermost(text, i, c, d)
    ensures a == c && b == d
  {
  }

  lemma NoVerdict(text: string, access: string -> Option<Access>, p: nat, a: nat, b: nat)
    requires Innermost(text, p, a, b) && a <= b < |text| && Verdict(Slice(text, a, b), access).None?
    ensures forall d: Edit :: d.at == p ==> !Wanted(text, access, d)
  {
    hide KeyAt, Verdict, AccessText;
    forall d: Edit | d.at == p && Wanted(text, access, d) ensures false {
      var c: nat, f: nat :| WantedIn(text, access, d, c, f);
      OneInnermost(text, p, a, b, c, f);
    }
  }

  lemma NoEdit(text: string, access: string -> Option<Access>, p: nat)
    requires NoObject(text, p)
    ensures forall d: Edit :: d.at == p ==> !Wanted(text, access, d)
  {
    hide KeyAt, Verdict, AccessText;
  }

  // ---------- What an insertion is like ----------

  /** An `access` member, no brace in it, and no quote that a key could begin or end with. */
  predicate Tidy(s: string) {
    && NoBraces(s) && |s| >= 9 && s[..9] == "\"access\":"
    && forall k :: 0 <= k < |s| && s[k] == '"' ==> k + 1 < |s| && s[k + 1] != 'm'
  }

  lemma NameEnds(access: Access)
    ensures forall k :: 0 <= k < |AccessName(access)| ==> 'a' <= AccessName(access)[k] <= 'z'
    ensures AccessName(access) != [] && AccessName(access)[0] != 'm'
  {
  }

  lemma PutsTidily(name: string, before: string, end: string)
    requires forall k :: 0 <= k < |name| ==> 'a' <= name[k] <= 'z'
    requires name != [] && name[0] != 'm'
    requires if Blank(before) then end == "\",\n" + before else end == "\", "
    ensures Tidy("\"access\": \"" + name + end)
  {
    var head := "\"access\": \"";
    var s := head + name + end;
    EndsTidily(before, end);
    assert |head| == 11 && head[..9] == "\"access\":" && s[..9] == head[..9];
    assert NoBraces(head);
    forall k | 0 <= k < |s| && s[k] == '"' ensures k + 1 < |s| && s[k + 1] != 'm' {
      if k < 11 {
        assert s[k] == head[k] && (k == 0 || k == 7 || k == 10);
        assert s[1] == head[1] == 'a' && s[8] == head[8] == ':' && s[11] == name[0];
      } else {
        assert k >= 11 + |name|;
        assert end[k - 11 - |name|] == '"';
        assert s[k + 1] == end[1];
      }
    }
  }

  lemma EndsTidily(before: string, end: string)
    requires if Blank(before) then end == "\",\n" + before else end == "\", "
    ensures NoBraces(end) && |end| > 1 && end[1] == ','
    ensures forall k :: 0 < k < |end| ==> end[k] != '"'
  {
    if Blank(before) {
      assert forall k :: 3 <= k < |end| ==> end[k] == before[k - 3] && IsSpace(before[k - 3]);
    }
  }

  lemma {:induction false} BeforeBlank(text: string, at: nat, access: Access)
    requires at <= |text|
    ensures Tidy(AccessText(text, at, access))
  {
    hide Tidy, LineStart, Blank;
    var before := text[LineStart(text, at)..at];
    var end := if Blank(before) then "\",\n" + before else "\", ";
    assert AccessText(text, at, access) == "\"access\": \"" + AccessName(access) + end;
    NameEnds(access);
    PutsTidily(AccessName(access), before, end);
  }

  // ---------- A second run finds nothing to do ----------

  /** The site's pattern matches from `p`, its colon at `c`. */
  predicate SiteAt(s: string, p: nat, c: nat) {
    p + 10 <= |s| && s[p..p + 10] == Quoted(SITE) && ColonAt(s, p + 10, c)
  }

  lemma SiteColon(s: string, p: nat) returns (c: nat)
    requires KeyAt(s, SITE, p)
    ensures SiteAt(s, p, c)
  {
    c :| c < |s| && ColonAt(s, p + |Quoted(SITE)|, c);
  }

  lemma ColonSite(s: string, p: nat, c: nat)
    requires SiteAt(s, p, c)
    ensures KeyAt(s, SITE, p)
  {
  }

  /** The only quote behind a match's first is its closing one, and space or the colon follows that. */
  lemma SiteQuotes(s: string, p: nat, c: nat)
    requires SiteAt(s, p, c)
    ensures c >= p + 10 && (s[p + 10] == ':' || IsSpace(s[p + 10]))
    ensures forall k :: p < k <= c && s[k] == '"' ==> k == p + 9
  {
    var name := s[p..p + 10];
    assert name == "\"mimeType\"";
    assert forall k :: p <= k < p + 10 ==> s[k] == name[k - p];
  }

  /** A match has no quote in it that something other than space or a colon follows. */
  lemma ClearOf(s: string, p: nat, c: nat, at: nat)
    requires SiteAt(s, p, c) && at + 1 < |s| && s[at] == '"' && s[at + 1] != ':' && !IsSpace(s[at + 1])
    ensures at <= p || c < at
  {
    SiteQuotes(s, p, c);
    hide SiteAt;
  }

  /** Two matches never overlap, so a search that goes on behind each match meets them all. */
  lemma SitesApart(s: string, p: nat, c: nat, q: nat, d: nat)
    requires SiteAt(s, p, c) && SiteAt(s, q, d) && p < q
    ensures c < q
  {
    SiteStarts(s, q, d);
    ClearOf(s, p, c, q);
  }

  lemma SiteStarts(s: string, p: nat, c: nat)
    requires SiteAt(s, p, c)
    ensures p < c < |s| && p + 1 < |s| && s[p] == '"' && s[p + 1] == 'm'
  {
    assert s[p..p + 10][0] == s[p] && s[p..p + 10][1] == s[p + 1];
  }

  lemma SiteMoves(text: string, e: Edit, p: nat, c: nat)
    requires e.at <= |text| && p < c < |text| && (e.at <= p || c < e.at)
    ensures SiteAt(text, p, c) <==> SiteAt(InsertOne(text, e), ShiftOne(e, p), ShiftOne(e, c))
  {
    var out, m, d := InsertOne(text, e), ShiftOne(e, p), ShiftOne(e, c);
    assert forall k :: p <= k <= c ==> out[k + m - p] == text[k];
    if p + 10 <= c {
      assert out[m..m + 10] == text[p..p + 10];
      assert forall k :: m + 10 <= k < d ==> out[k] == text[k - (m - p)];
      assert forall k :: p + 10 <= k < c ==> text[k] == out[k + (m - p)];
    }
  }

  lemma SiteKept(text: string, e: Edit, p: nat)
    requires e.at <= |text| && KeyAt(text, SITE, e.at) && KeyAt(text, SITE, p)
    ensures KeyAt(InsertOne(text, e), SITE, ShiftOne(e, p))
  {
    var c := SiteColon(text, p);
    var d := SiteColon(text, e.at);
    SiteStarts(text, e.at, d);
    SiteStarts(text, p, c);
    ClearOf(text, p, c, e.at);
    hide KeyAt, SiteAt, InsertOne;
    SiteMoves(text, e, p, c);
    ColonSite(InsertOne(text, e), ShiftOne(e, p), ShiftOne(e, c));
  }

  lemma InsertStarts(text: string, e: Edit)
    requires e.at <= |text| && Tidy(e.insert)
    ensures var out := InsertOne(text, e);
            && e.at + 9 <= |out| && out[e.at..e.at + 9] == "\"access\":"
            && out[e.at] == '"' && out[e.at + 1] == 'a'
  {
    var out := InsertOne(text, e);
    assert out[e.at..e.at + 9] == e.insert[..9];
    assert out[e.at..e.at + 9][0] == out[e.at] && out[e.at..e.at + 9][1] == out[e.at + 1];
  }

  /** No match begins in the inserted text. */
  lemma NoSiteInside(text: string, e: Edit, q: nat, d: nat)
    requires e.at <= |text| && Tidy(e.insert) && SiteAt(InsertOne(text, e), q, d)
    ensures q < e.at || e.at + |e.insert| <= q
  {
    var out := InsertOne(text, e);
    SiteStarts(out, q, d);
    assert forall k :: 0 <= k < |e.insert| ==> out[e.at + k] == e.insert[k];
    assert q >= e.at ==> out[q] == out[e.at + (q - e.at)] && out[q + 1] == out[e.at + (q - e.at + 1)];
  }

  lemma SiteComesFrom(text: string, e: Edit, q: nat) returns (p: nat)
    requires e.at <= |text| && Tidy(e.insert) && KeyAt(InsertOne(text, e), SITE, q)
    ensures q == ShiftOne(e, p) && KeyAt(text, SITE, p)
  {
    var out := InsertOne(text, e);
    var d := SiteColon(out, q);
    SiteStarts(out, q, d);
    InsertStarts(text, e);
    ClearOf(out, q, d, e.at);
    NoSiteInside(text, e, q, d);
    p := if q < e.at then q else q - |e.insert|;
    var c := if q < e.at then d else d - |e.insert|;
    SiteMoves(text, e, p, c);
    ColonSite(text, p, c);
  }

  ghost predicate AtSites(text: string, edits: seq<Edit>) {
    forall i :: 0 <= i < |edits| ==> Tidy(edits[i].insert) && KeyAt(text, SITE, edits[i].at)
  }

  lemma {:induction false} SitesForward(text: string, edits: seq<Edit>, p: nat)
    requires Ascending(text, edits) && AtSites(text, edits) && KeyAt(text, SITE, p)
    ensures KeyAt(Applied(text, edits), SITE, Shift(edits, p))
  {
    hide KeyAt, InsertOne, Tidy;
    if edits != [] {
      var e, late := edits[0], edits[1..];
      SitesForward(text, late, p);
      SitesForward(text, late, e.at);
      NothingBefore(late, e.at);
      SiteKept(Applied(text, late), e, Shift(late, p));
      ShiftStep(text, edits, p);
    } else {
      assert Applied(text, edits) == text && Shift(edits, p) == p;
    }
  }

  lemma {:induction false} SitesBackward(text: string, edits: seq<Edit>, q: nat) returns (p: nat)
    requires Ascending(text, edits) && AtSites(text, edits) && KeyAt(Applied(text, edits), SITE, q)
    ensures q == Shift(edits, p) && KeyAt(text, SITE, p)
  {
    if edits == [] {
      p := q;
    } else {
      var e, late := edits[0], edits[1..];
      var m := SiteComesFrom(Applied(text, late), e, q);
      p := SitesBackward(text, late, m);
      ShiftStep(text, edits, p);
    }
  }

  /** The matches in the edited page are exactly those of the page, each where the edits moved it. */
  lemma SitesExactly(text: string, edits: seq<Edit>, q: nat)
    requires Ascending(text, edits) && AtSites(text, edits)
    ensures KeyAt(Applied(text, edits), SITE, q) <==> exists p: nat :: q == Shift(edits, p) && KeyAt(text, SITE, p)
  {
    hide KeyAt, Applied, Shift;
    if KeyAt(Applied(text, edits), SITE, q) {
      var p := SitesBackward(text, edits, q);
      assert q == Shift(edits, p) && KeyAt(text, SITE, p);
    }
    forall p: nat | q == Shift(edits, p) && KeyAt(text, SITE, p) ensures KeyAt(Applied(text, edits), SITE, q) {
      SitesForward(text, edits, p);
    }
  }

  predicate EditInside(edits: seq<Edit>, a: nat, b: nat) {
    exists i :: 0 <= i < |edits| && a < edits[i].at <= b
  }

  predicate AllTidy(edits: seq<Edit>) {
    forall i :: 0 <= i < |edits| ==> Tidy(edits[i].insert)
  }

  lemma AccessInside(text: string, e: Edit, a: nat, b: nat)
    requires a < e.at <= b < |text| && Tidy(e.insert)
    ensures HasKey(Slice(InsertOne(text, e), a, b + |e.insert|), "access")
  {
    var out, p := InsertOne(text, e), e.at - a;
    var obj := out[a..b + |e.insert| + 1];
    InsertStarts(text, e);
    assert obj[p..p + 9] == out[e.at..e.at + 9];
    assert Quoted("access") == obj[p..p + 9][..8] == obj[p..p + 8];
    assert obj[p + 8] == obj[p..p + 9][8];
    assert ColonAt(obj, p + |Quoted("access")|, p + 8);
    assert KeyAt(obj, "access", p);
  }

  lemma SliceKept(text: string, e: Edit, a: nat, b: nat)
    requires a <= b < |text| && e.at <= |text| && (e.at <= a || b < e.at)
    ensures ShiftOne(e, b) < |InsertOne(text, e)|
    ensures Slice(InsertOne(text, e), ShiftOne(e, a), ShiftOne(e, b)) == Slice(text, a, b)
  {
  }

  /** The object's text after the edits: unchanged when none fell inside it, and with an `access` otherwise. */
  predicate ObjectAfter(text: string, edits: seq<Edit>, a: nat, b: nat)
    requires Ascending(text, edits) && a <= b < |text|
  {
    && Shift(edits, a) <= Shift(edits, b) < |Applied(text, edits)|
    && var obj := Slice(Applied(text, edits), Shift(edits, a), Shift(edits, b));
       if EditInside(edits, a, b) then HasKey(obj, "access") else obj == Slice(text, a, b)
  }

  lemma {:induction false} ObjectText(text: string, edits: seq<Edit>, a: nat, b: nat)
    requires Ascending(text, edits) && AllTidy(edits) && a <= b < |text|
    ensures ObjectAfter(text, edits, a, b)
  {
    if edits == [] {
      assert Shift(edits, a) == a && Shift(edits, b) == b;
    } else {
      ObjectText(text, edits[1..], a, b);
      var e := edits[0];
      hide ObjectAfter, Applied;
      if a < e.at <= b { EditedObject(text, edits, a, b); } else { SparedObject(text, edits, a, b); }
    }
  }

  lemma EditedObject(text: string, edits: seq<Edit>, a: nat, b: nat)
    requires Ascending(text, edits) && edits != [] && a < edits[0].at <= b < |text|
    requires Tidy(edits[0].insert) && ObjectAfter(text, edits[1..], a, b)
    ensures ObjectAfter(text, edits, a, b)
  {
    var e, late := edits[0], edits[1..];
    ShiftStep(text, edits, a);
    ShiftStep(text, edits, b);
    NothingBefore(late, a);
    InsideStep(edits, a, b);
    hide HasKey, Tidy, InsertOne, EditInside, Slice;
    AccessInside(Applied(text, late), e, a, Shift(late, b));
  }

  lemma SparedObject(text: string, edits: seq<Edit>, a: nat, b: nat)
    requires Ascending(text, edits) && edits != [] && a <= b < |text| && (edits[0].at <= a || b < edits[0].at)
    requires ObjectAfter(text, edits[1..], a, b)
    ensures ObjectAfter(text, edits, a, b)
  {
    var e, late := edits[0], edits[1..];
    ShiftStep(text, edits, a);
    ShiftStep(text, edits, b);
    if b < e.at {
      NothingBefore(late, a);
      NothingBefore(late, b);
    }
    InsideStep(edits, a, b);
    hide HasKey, InsertOne, EditInside, Slice;
    SliceKept(Applied(text, late), e, Shift(late, a), Shift(late, b));
  }

  lemma InsideStep(edits: seq<Edit>, a: nat, b: nat)
    requires edits != []
    ensures EditInside(edits, a, b) <==> a < edits[0].at <= b || EditInside(edits[1..], a, b)
  {
    if EditInside(edits, a, b) {
      var i :| 0 <= i < |edits| && a < edits[i].at <= b;
      assert i > 0 ==> edits[1..][i - 1] == edits[i];
    }
    if EditInside(edits[1..], a, b) {
      var i :| 0 <= i < |edits[1..]| && a < edits[1..][i].at <= b;
      assert edits[i + 1] == edits[1..][i];
    }
  }

  lemma WantedEditsAreTidy(text: string, access: string -> Option<Access>, edits: seq<Edit>)
    requires EditsUpTo(text, access, edits, |text|)
    ensures AtSites(text, edits) && AllTidy(edits) && Braceless(edits)
  {
    hide KeyAt, Tidy, Verdict, Innermost, AccessText, Ascending;
    forall i | 0 <= i < |edits|
      ensures Tidy(edits[i].insert) && KeyAt(text, SITE, edits[i].at) && NoBraces(edits[i].insert)
    {
      var e := edits[i];
      assert e in edits;
      var a: nat, b: nat :| WantedIn(text, access, e, a, b);
      BeforeBlank(text, e.at, Verdict(Slice(text, a, b), access).value);
      TidyBraceless(e.insert);
    }
  }

  lemma TidyBraceless(s: string)
    requires Tidy(s)
    ensures NoBraces(s)
  {
  }

  lemma SettledObject(obj: string, access: string -> Option<Access>)
    requires HasKey(obj, "access")
    ensures Verdict(obj, access).None?
  {
    hide HasKey;
  }

  /** Whatever the census answers, a second run over the edited page inserts nothing. */
  lemma SecondRunFindsNothing(text: string, access: string -> Option<Access>, edits: seq<Edit>, e: Edit)
    requires EditsUpTo(text, access, edits, |text|)
    ensures !Wanted(Simultaneous(text, edits), access, e)
  {
    AppliedIsSimultaneous(text, edits);
    WantedEditsAreTidy(text, access, edits);
    hide KeyAt, Verdict, AccessText, Simultaneous, Innermost, Shift, Applied, AllTidy, AtSites, Slice;
    var out := Applied(text, edits);
    if Wanted(out, access, e) {
      var c: nat, d: nat :| WantedIn(out, access, e, c, d);
      var p := SitesBackward(text, edits, e.at);
      var a, b := ObjectComesFrom(text, edits, p, c, d);
      SettledAfter(text, access, edits, p, a, b);
      assert false;
    }
  }

  lemma ObjectComesFrom(text: string, edits: seq<Edit>, i: nat, c: nat, d: nat) returns (a: nat, b: nat)
    requires Ascending(text, edits) && Braceless(edits)
    requires Innermost(Applied(text, edits), Shift(edits, i), c, d)
    ensures c == Shift(edits, a) && d == Shift(edits, b) && Innermost(text, i, a, b) && a <= i < b < |text|
  {
    EditsKeepObjects(text, edits, i, c, d);
    a, b :| Innermost(text, i, a, b) && c == Shift(edits, a) && d == Shift(edits, b);
  }

  lemma SettledAfter(text: string, access: string -> Option<Access>, edits: seq<Edit>, p: nat, a: nat, b: nat)
    requires EditsUpTo(text, access, edits, |text|) && AllTidy(edits)
    requires KeyAt(text, SITE, p) && Innermost(text, p, a, b) && a <= p < b < |text|
    ensures Shift(edits, a) <= Shift(edits, b) < |Applied(text, edits)|
    ensures Verdict(Slice(Applied(text, edits), Shift(edits, a), Shift(edits, b)), access).None?
  {
    hide KeyAt, Verdict, AccessText, Shift, AllTidy, Applied, Slice, HasKey, Innermost;
    ObjectText(text, edits, a, b);
    if EditInside(edits, a, b) {
      SettledObject(Slice(Applied(text, edits), Shift(edits, a), Shift(edits, b)), access);
    } else {
      SameVerdict(text, access, edits, p, a, b);
    }
  }

  /** An object that no edit fell into was left alone, and is again. */
  lemma SameVerdict(text: string, access: string -> Option<Access>, edits: seq<Edit>, p: nat, a: nat, b: nat)
    requires EditsUpTo(text, access, edits, |text|) && KeyAt(text, SITE, p)
    requires Innermost(text, p, a, b) && a <= p < b < |text|
    ensures EditInside(edits, a, b) || Verdict(Slice(text, a, b), access).None?
  {
    hide Verdict, AccessText, HasKey, Ascending;
    var c := SiteColon(text, p);
    SiteStarts(text, p, c);
    assert text[a] == '{';
    var verdict := Verdict(Slice(text, a, b), access);
    if verdict.Some? {
      var e := Edit(p, AccessText(text, p, verdict.value));
      assert WantedIn(text, access, e, a, b);
      assert e in edits;
      var i :| 0 <= i < |edits| && edits[i] == e;
      assert a < edits[i].at <= b;
    }
  }
}
