/** Where the members that `doc-envelope-fix` adds land among a block's braces. */
module EnvelopePlace {
  import opened Options
  import opened JsText
  import opened EnvelopeFix
  import opened ObjectFinder

  // ---------- Two places in one object ----------

  lemma {:induction false} DepthAppend(a: string, b: string, k: nat)
    requires k <= |b|
    ensures Depth(a + b, |a| + k) == Depth(a, |a|) + Depth(b, k)
  {
    if k == 0 {
      DepthPrefix(a, b, |a|);
    } else {
      DepthAppend(a, b, k - 1);
      assert (a + b)[|a| + k - 1] == b[k - 1];
    }
  }

  lemma {:induction false} DepthPrefix(a: string, b: string, n: nat)
    requires n <= |a|
    ensures Depth(a + b, n) == Depth(a, n)
  {
    if n > 0 {
      DepthPrefix(a, b, n - 1);
      assert (a + b)[n - 1] == a[n - 1];
    }
  }

  /** Every brace the text closes it has opened, and the other way round. */
  ghost predicate Level(s: string) {
    Depth(s, |s|) == 0 && forall k :: 0 <= k <= |s| ==> Depth(s, k) >= 0
  }

  lemma OneDeeper(text: string, i: nat, open: nat)
    requires LastOpen(text, i, open)
    ensures Depth(text, i + 1) == Depth(text, open) + 1
  {
    assert Depth(text, open + 1) == Depth(text, open) + 1;
  }

  lemma DepthBetween(before: string, between: string, after: string, k: nat)
    requires k <= |between|
    ensures Depth(before + between + after, |before| + k) == Depth(before, |before|) + Depth(between, k)
  {
    DepthAppend(before, between, k);
    DepthPrefix(before + between, after, |before| + k);
  }

  /** A later place is in the same object exactly when what stands in between is level. */
  lemma SameObjectExactly(before: string, between: string, after: string, open: nat)
    requires before != [] && LastOpen(before + between + after, |before| - 1, open)
    ensures LastOpen(before + between + after, |before| + |between| - 1, open) <==> Level(between)
  {
    var text, i, j := before + between + after, |before| - 1, |before| + |between| - 1;
    hide Depth;
    DepthBetween(before, between, after, 0);
    DepthBetween(before, between, after, |between|);
    Nothing(between);
    OneDeeper(text, i, open);
    if LastOpen(text, j, open) {
      OneDeeper(text, j, open);
      forall k: nat | k <= |between| ensures Depth(between, k) >= 0 {
        DepthBetween(before, between, after, k);
        assert open < |before| + k <= j + 1;
      }
    }
    if Level(between) {
      forall k | open < k <= j + 1 ensures Depth(text, k) >= Depth(text, i + 1) {
        if k > i + 1 { DepthBetween(before, between, after, k - |before|); }
      }
    }
  }

  lemma Nothing(s: string)
    ensures Depth(s, 0) == 0
  {
  }

  // ---------- The block as one text ----------

  /** The lines, each with its end. */
  function Text(lines: seq<string>): string {
    if lines == [] then [] else lines[0] + "\n" + Text(lines[1..])
  }

  lemma {:induction false} JoinAppend(a: seq<string>, b: seq<string>)
    requires b != []
    ensures Join(a + b) == Text(a) + Join(b)
  {
    if a == [] {
      assert a + b == b;
    } else {
      assert (a + b)[1..] == a[1..] + b;
      JoinAppend(a[1..], b);
    }
  }

  lemma {:induction false} OutSplits(seg: seq<string>, plan: Plan, i: nat, n: nat) returns (rest: seq<string>)
    requires i < n <= |seg| && plan.Rewrite?
    ensures LinesOut(seg, plan, n) == LinesOut(seg, plan, i) + LineOut(seg, i, plan) + rest
  {
    hide LineOut;
    if i == n - 1 {
      rest := [];
    } else {
      rest := OutSplits(seg, plan, i, n - 1);
      rest := rest + LineOut(seg, n - 1, plan);
    }
  }

  /** The key's place in its line is kept by putting a comma at the end. */
  lemma KeyInBare(l: string, k: string, p: nat)
    requires KeyAt(l, k, p)
    ensures p < |Bare(l)| && Bare(l) <= l && Bare(l)[p] == '"'
  {
    var key := Quoted(k);
    var q: nat :| q < |l| && ColonAt(l, p + |key|, q);
    BareKeeps(l, q);
    assert l[p..p + |key|][0] == l[p] == '"';
  }

  lemma {:induction false} BareKeeps(l: string, q: nat)
    requires q < |l| && !IsSpace(l[q]) && l[q] != ','
    ensures q < |Bare(l)| && Bare(l) <= l
  {
    if IsSpace(l[|l| - 1]) {
      BareKeeps(l[..|l| - 1], q);
      assert TrimEnd(l) == TrimEnd(l[..|l| - 1]);
    }
  }

  /** What stands in front of the added pair, from the anchor's key on. */
  function Gap(l: string, p: nat): string
    requires p < |Bare(l)|
  {
    Bare(l)[p + 1..] + "," + "\n" + Indent(l)
  }

  lemma {:induction false} NoBraceDepth(s: string, n: nat)
    requires n <= |s| && forall k :: 0 <= k < |s| ==> s[k] != '{' && s[k] != '}'
    ensures Depth(s, n) == 0
  {
    if n > 0 { NoBraceDepth(s, n - 1); }
  }

  /** The comma, the line's end and the indent hold no brace. */
  lemma GapLevel(l: string, p: nat)
    requires p < |Bare(l)|
    ensures Level(Gap(l, p)) <==> Level(Bare(l)[p + 1..])
  {
    var w, end := Bare(l)[p + 1..], "," + "\n" + Indent(l);
    assert Gap(l, p) == w + end;
    hide Depth, Bare, Indent;
    forall k: nat | k <= |w| ensures Depth(w + end, k) == Depth(w, k) {
      DepthPrefix(w, end, k);
    }
    EndLevel(l, w, |end|);
    if Level(w) {
      forall k: nat | k <= |w + end| ensures Depth(w + end, k) >= 0 {
        if k > |w| { EndLevel(l, w, k - |w|); }
      }
    }
  }

  lemma EndLevel(l: string, w: string, k: nat)
    requires k <= |"," + "\n" + Indent(l)|
    ensures Depth(w + ("," + "\n" + Indent(l)), |w| + k) == Depth(w, |w|)
  {
    var end := "," + "\n" + Indent(l);
    forall i | 0 <= i < |end| ensures end[i] != '{' && end[i] != '}' {
      if i >= 2 { assert end[i] == Indent(l)[i - 2] && IsSpace(Indent(l)[i - 2]); }
    }
    DepthAppend(w, end, k);
    NoBraceDepth(end, k);
  }

  /** The block as it comes out, cut behind the anchor's key quote and in front of the added pair. */
  lemma AnchorText(seg: seq<string>, plan: Plan, k: string, p: nat) returns (before: string, after: string)
    requires plan.Rewrite? && plan.anchor < |seg| && plan.added != []
    requires !(plan.needsReq && SuccessFalse(seg[plan.anchor])) && KeyAt(seg[plan.anchor], k, p)
    ensures p < |Bare(seg[plan.anchor])|
    ensures Join(LinesOut(seg, plan, |seg|)) == before + Gap(seg[plan.anchor], p) + after
    ensures before == Text(LinesOut(seg, plan, plan.anchor)) + Bare(seg[plan.anchor])[..p + 1]
    ensures before[|before| - 1] == '"' && plan.added[0] <= after
  {
    hide LinesOut, LineOut, More, AddedLines, SuccessFalse, KeyAt, Bare, Indent, Text, Join;
    var l, m := seg[plan.anchor], plan.anchor;
    KeyInBare(l, k, p);
    var rest := OutSplits(seg, plan, m, |seg|);
    AnchorOut(seg, plan, m);
    var added := AddedLines(Indent(l), plan.added, More(seg, m), |plan.added|);
    AddedFirst(Indent(l), plan.added, More(seg, m), |plan.added|);
    var tail: string;
    tail := JoinHead(added + rest, Indent(l) + plan.added[0]);
    JoinAppend(LinesOut(seg, plan, m), [WithComma(l)] + (added + rest));
    JoinTwo(WithComma(l), added + rest);
    assert LinesOut(seg, plan, |seg|) == LinesOut(seg, plan, m) + ([WithComma(l)] + (added + rest));
    before := Text(LinesOut(seg, plan, m)) + Bare(l)[..p + 1];
    after := plan.added[0] + tail;
    assert Bare(l) == Bare(l)[..p + 1] + Bare(l)[p + 1..];
    assert before[|before| - 1] == Bare(l)[p];
  }

  lemma JoinTwo(l: string, rest: seq<string>)
    requires rest != []
    ensures Join([l] + rest) == l + "\n" + Join(rest)
  {
    assert ([l] + rest)[1..] == rest;
  }

  lemma JoinHead(lines: seq<string>, head: string) returns (tail: string)
    requires lines != [] && head <= lines[0]
    ensures Join(lines) == head + tail
  {
    tail := lines[0][|head|..] + if |lines| == 1 then "" else "\n" + Join(lines[1..]);
    assert lines[0] == head + lines[0][|head|..];
  }

  lemma {:induction false} AddedFirst(indent: string, added: seq<string>, more: bool, n: nat)
    requires 0 < n <= |added|
    ensures indent + added[0] <= AddedLines(indent, added, more, n)[0]
  {
    if n > 1 { AddedFirst(indent, added, more, n - 1); }
  }

  /** The added pair lands in the object that holds the anchor's key exactly when the rest of the anchor's
      line, behind the key's first quote, closes what it opens and no more. */
  lemma PairLandsInsideExactly(seg: seq<string>, status: Option<string>, rules: Rules, k: string, p: nat, open: nat)
    returns (before: string, after: string)
    requires var plan := PlanFor(seg, status, rules);
             && plan.Rewrite? && plan.anchor < |seg| && plan.added != []
             && !(plan.needsReq && SuccessFalse(seg[plan.anchor])) && KeyAt(seg[plan.anchor], k, p)
    ensures var plan := PlanFor(seg, status, rules);
            var l := seg[plan.anchor];
            && p < |Bare(l)| && before != [] && before[|before| - 1] == '"' && plan.added[0] <= after
            && before == Text(LinesOut(seg, plan, plan.anchor)) + Bare(l)[..p + 1]
            && FixBlock(seg, status, rules) == LinesOut(seg, plan, |seg|)
            && Join(FixBlock(seg, status, rules)) == before + Gap(l, p) + after
            && var text := before + Gap(l, p) + after;
               LastOpen(text, |before| - 1, open) ==>
                 (LastOpen(text, |before| + |Gap(l, p)| - 1, open) <==> Level(Bare(l)[p + 1..]))
  {
    hide PlanFor, LinesOut, LastOpen, Level, SuccessFalse, KeyAt, Bare;
    var plan := PlanFor(seg, status, rules);
    before, after := AnchorText(seg, plan, k, p);
    var l := seg[plan.anchor];
    GapLevel(l, p);
    if LastOpen(before + Gap(l, p) + after, |before| - 1, open) {
      SameObjectExactly(before, Gap(l, p), after, open);
    }
  }

  /** Text without braces that closes an object is not level. */
  lemma ClosedOnTheLine(message: string)
    requires forall i :: 0 <= i < |message| ==> message[i] != '{' && message[i] != '}'
    ensures !Level(message + "}")
  {
    NoBraceDepth(message, |message|);
    DepthAppend(message, "}", 1);
    assert Depth("}", 1) == Depth("}", 0) - 1;
    assert |message + "}"| == |message| + 1;
  }
}
