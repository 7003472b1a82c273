/** The pass that rewrites the error bodies a page shows into the envelope the server sends: walk the
    fenced blocks, rebuild the lines of each that needs it, splice them in, and move the later fences.

    The fence indices are kept while the lines move under them. After every block they are exactly the
    page's fences again, what lies outside the blocks is untouched, and a rewritten block is its own lines,
    up to a trailing comma, with members inserted behind some of them. The status a block gets is read from
    the page as it stands by then, so it may come from a line inserted into a block above. */
module EnvelopeFix {
  import opened Options
  import opened JsText

  // ---------- Lines ----------

  function Indent(l: string): (r: string)
    ensures Blank(r)
  {
    if l == [] || !IsSpace(l[0]) then [] else [l[0]] + Indent(l[1..])
  }

  function TrimEnd(l: string): string {
    if l != [] && IsSpace(l[|l| - 1]) then TrimEnd(l[..|l| - 1]) else l
  }

  function DropComma(l: string): string {
    if l != [] && l[|l| - 1] == ',' then l[..|l| - 1] else l
  }

  /** The line without its trailing space and one trailing comma. */
  function Bare(l: string): string {
    DropComma(TrimEnd(l))
  }

  /** `line.replace(/,?\s*$/, ',')`. */
  function WithComma(l: string): string {
    Bare(l) + ","
  }

  /** The same line, but for a trailing comma. */
  predicate SameLine(l: string, m: string) {
    m == l || (m == WithComma(l) && Bare(m) == Bare(l))
  }

  lemma CommaOnly(l: string)
    ensures SameLine(l, WithComma(l))
  {
    assert TrimEnd(WithComma(l)) == WithComma(l);
  }

  /** `/^\s*```/`. */
  predicate IsFence(l: string) {
    var n := |Indent(l)|;
    n + 3 <= |l| && l[n..n + 3] == "```"
  }

  predicate FalseAt(s: string, n: nat, q: nat) {
    n <= q && q + 5 <= |s| && s[q..q + 5] == "false" && forall k :: n <= k < q ==> IsSpace(s[k])
  }

  predicate FalseFollows(s: string, n: nat) {
    exists q: nat :: q < |s| && FalseAt(s, n, q)
  }

  predicate SuccessFalseAt(s: string, p: nat, q: nat) {
    var key := Quoted("success");
    && p + |key| <= |s| && s[p..p + |key|] == key && ColonAt(s, p + |key|, q) && FalseFollows(s, q + 1)
  }

  /** `/"success"\s*:\s*false/`. */
  predicate SuccessFalse(s: string) {
    exists p: nat, q: nat :: p < |s| && q < |s| && SuccessFalseAt(s, p, q)
  }

  function Join(lines: seq<string>): string {
    if lines == [] then [] else if |lines| == 1 then lines[0] else lines[0] + "\n" + Join(lines[1..])
  }

  // ---------- What one block becomes ----------

  /** What the pass reads off the page and the platform: the value of the first `"code"` in a body, the
      first free-standing 4xx or 5xx number of a line, the registered codes and their categories. */
  datatype Rules = Rules(codeOf: string -> Option<string>, statusIn: string -> Option<string>,
                         known: string -> bool, category: (string, string) -> string)

  /** Leave the block, or rewrite it: whether a request id goes in behind `"success": false`, and what
      goes in behind the anchor line. */
  datatype Plan = Leave | Rewrite(needsReq: bool, anchor: nat, added: seq<string>)

  /** The first line from `lo`, below `hi`, with the key. */
  function FirstLine(seg: seq<string>, k: string, lo: nat, hi: nat): (r: Option<nat>)
    requires hi <= |seg|
    ensures r.Some? ==> lo <= r.value < hi && HasKey(seg[r.value], k)
    ensures forall i :: lo <= i < (if r.Some? then r.value else hi) ==> !HasKey(seg[i], k)
    decreases hi - lo
  {
    if lo >= hi then None else if HasKey(seg[lo], k) then Some(lo) else FirstLine(seg, k, lo + 1, hi)
  }

  /** The error object's own message, or its code line where it has none. */
  function Anchor(seg: seq<string>): (r: Option<nat>)
    ensures r.Some? ==> r.value < |seg|
  {
    var code := FirstLine(seg, "code", 0, |seg|);
    var details := FirstLine(seg, "details", 0, |seg|);
    var message := FirstLine(seg, "message", if code.Some? then code.value + 1 else 0,
                             if details.Some? then details.value else |seg|);
    if message.Some? then message else code
  }

  /** The first line with the key. */
  ghost predicate First(seg: seq<string>, k: string, i: nat) {
    i < |seg| && HasKey(seg[i], k) && forall j :: 0 <= j < i ==> !HasKey(seg[j], k)
  }

  /** A message behind the first code line and in front of the first details line, where there are such lines. */
  ghost predicate OwnMessage(seg: seq<string>, m: nat) {
    && m < |seg| && HasKey(seg[m], "message")
    && (forall c: nat :: First(seg, "code", c) ==> c < m)
    && forall d: nat :: First(seg, "details", d) ==> m < d
  }

  /** The first message of the error object's own; the first code line where it has none. */
  ghost predicate IsAnchor(seg: seq<string>, a: nat) {
    if exists m: nat :: OwnMessage(seg, m) then OwnMessage(seg, a) && forall m: nat :: m < a ==> !OwnMessage(seg, m)
    else First(seg, "code", a)
  }

  lemma FirstLineIs(seg: seq<string>, k: string)
    ensures var r := FirstLine(seg, k, 0, |seg|);
            if r.Some? then First(seg, k, r.value) && forall i: nat :: First(seg, k, i) ==> i == r.value
            else forall i: nat :: !First(seg, k, i)
  {
    hide HasKey;
    var r := FirstLine(seg, k, 0, |seg|);
    if r.Some? {
      forall i: nat | First(seg, k, i) ensures i == r.value {
      }
    }
  }

  /** Where the pair goes: behind the first message between the first code and the first details, else behind the
      first code; nowhere exactly when there is neither. */
  lemma AnchorExactly(seg: seq<string>)
    ensures forall a: nat :: Anchor(seg) == Some(a) <==> IsAnchor(seg, a)
    ensures Anchor(seg) == None <==> (forall m: nat :: !OwnMessage(seg, m)) && forall c: nat :: !First(seg, "code", c)
  {
    FirstLineIs(seg, "code");
    FirstLineIs(seg, "details");
    hide HasKey, First;
    var code, details := FirstLine(seg, "code", 0, |seg|), FirstLine(seg, "details", 0, |seg|);
    var lo, hi := if code.Some? then code.value + 1 else 0, if details.Some? then details.value else |seg|;
    var message := FirstLine(seg, "message", lo, hi);
    forall m: nat ensures OwnMessage(seg, m) <==> lo <= m < hi && HasKey(seg[m], "message") {
    }
    assert message.Some? ==> OwnMessage(seg, message.value);
    forall m: nat | OwnMessage(seg, m) ensures message.Some? && message.value <= m {
    }
  }

  function CountWritten(seg: seq<string>): nat {
    if seg == [] then 0 else (if Blank(seg[0]) then 0 else 1) + CountWritten(seg[1..])
  }

  function PlanFor(seg: seq<string>, status: Option<string>, rules: Rules): Plan {
    var body := Join(seg);
    if !HasKey(body, "error") || !HasKey(body, "code") then Leave
    else if HasKey(body, "data") && !SuccessFalse(body) then Leave
    else
      var needsReq := !HasKey(body, "requestId");
      var code := rules.codeOf(body);
      var canPair := code.Some? && rules.known(code.value) && status.Some?;
      var addStatus := if !HasKey(body, "statusCode") && canPair then ["\"statusCode\": " + status.value] else [];
      var addCategory :=
        if !HasKey(body, "category") && canPair
        then ["\"category\": \"" + rules.category(code.value, status.value) + "\""] else [];
      var added := addStatus + addCategory;
      if !needsReq && added == [] then Leave
      else
        var anchor := Anchor(seg);
        if anchor.None? || CountWritten(seg) == 1 then Leave else Rewrite(needsReq, anchor.value, added)
  }

  /** `/^\s*[}\]]/`. */
  predicate Closes(l: string) {
    var n := |Indent(l)|;
    n < |l| && (l[n] == '}' || l[n] == ']')
  }

  function NextWritten(seg: seq<string>, i: nat): (r: Option<nat>)
    ensures r.Some? ==> i <= r.value < |seg| && !Blank(seg[r.value])
    ensures forall k :: i <= k < (if r.Some? then r.value else |seg|) ==> Blank(seg[k])
    decreases |seg| - i
  {
    if i >= |seg| then None else if !Blank(seg[i]) then Some(i) else NextWritten(seg, i + 1)
  }

  /** Something follows line `i` inside its object. */
  predicate More(seg: seq<string>, i: nat) {
    var next := NextWritten(seg, i + 1);
    next.Some? && !Closes(seg[next.value])
  }

  const REQUEST_UUID := "3f8a1c74-9b2e-4d10-" + "8c55-6a0f2b7e19dd"
  const REQUEST_VALUE := "\"" + REQUEST_UUID + "\""
  const REQUEST_ID := "\"requestId\": " + REQUEST_VALUE + ","

  function RequestText(l: string): string {
    Indent(l) + REQUEST_ID
  }

  /** The first `n` added lines, commas between them, and behind the last one when something follows. */
  function AddedLines(indent: string, added: seq<string>, more: bool, n: nat): (r: seq<string>)
    requires n <= |added|
    ensures |r| == n
  {
    if n == 0 then []
    else
      AddedLines(indent, added, more, n - 1)
      + [indent + added[n - 1] + if n < |added| || more then "," else ""]
  }

  /** What line `i` of the block becomes. */
  function LineOut(seg: seq<string>, i: nat, plan: Plan): (r: seq<string>)
    requires i < |seg| && plan.Rewrite?
    ensures |r| >= 1
  {
    if plan.needsReq && SuccessFalse(seg[i]) then [WithComma(seg[i]), RequestText(seg[i])]
    else if i == plan.anchor && plan.added != [] then
      [WithComma(seg[i])] + AddedLines(Indent(seg[i]), plan.added, More(seg, i), |plan.added|)
    else [seg[i]]
  }

  function LinesOut(seg: seq<string>, plan: Plan, n: nat): seq<string>
    requires n <= |seg| && plan.Rewrite?
  {
    if n == 0 then [] else LinesOut(seg, plan, n - 1) + LineOut(seg, n - 1, plan)
  }

  function FixBlock(seg: seq<string>, status: Option<string>, rules: Rules): seq<string> {
    var plan := PlanFor(seg, status, rules);
    if plan.Leave? then seg else LinesOut(seg, plan, |seg|)
  }

  method RewriteBlock(seg: seq<string>, plan: Plan) returns (out: seq<string>)
    requires plan.Rewrite?
    ensures out == LinesOut(seg, plan, |seg|)
  {
    hide SuccessFalse, WithComma, Indent, More, RequestText;
    out := [];
    for i := 0 to |seg|
      invariant out == LinesOut(seg, plan, i)
    {
      var line := seg[i];
      ghost var before := out;
      if plan.needsReq && SuccessFalse(line) {
        out := out + [WithComma(line)];
        out := out + [RequestText(line)];
        assert out == before + LineOut(seg, i, plan);
        continue;
      }
      if i == plan.anchor && plan.added != [] {
        var indent, more := Indent(line), More(seg, i);
        out := out + [WithComma(line)];
        for k := 0 to |plan.added|
          invariant out == before + ([WithComma(line)] + AddedLines(indent, plan.added, more, k))
        {
          out := out + [indent + plan.added[k] + if k < |plan.added| - 1 || more then "," else ""];
        }
        assert out == before + LineOut(seg, i, plan);
        continue;
      }
      out := out + [line];
    }
  }

  // ---------- The status above a block ----------

  /** The nearest of the twelve lines above the fence that states a status states `status`. */
  ghost predicate NearestStatus(lines: seq<string>, fence: nat, rules: Rules, i: nat, status: string) {
    && i < fence <= |lines| && fence <= i + 12 && rules.statusIn(lines[i]) == Some(status)
    && forall k :: i < k < fence ==> rules.statusIn(lines[k]).None?
  }

  function StatusFrom(lines: seq<string>, i: int, low: nat, rules: Rules): Option<string>
    requires i < |lines|
    decreases i - low
  {
    if i < low then None
    else if rules.statusIn(lines[i]).Some? then rules.statusIn(lines[i]) else StatusFrom(lines, i - 1, low, rules)
  }

  function StatusAbove(lines: seq<string>, fence: nat, rules: Rules): Option<string>
    requires fence <= |lines|
  {
    StatusFrom(lines, fence - 1, if fence >= 12 then fence - 12 else 0, rules)
  }

  method FindStatus(lines: seq<string>, fence: nat, rules: Rules) returns (r: Option<string>)
    requires fence <= |lines|
    ensures r == StatusAbove(lines, fence, rules)
  {
    var i: int := fence - 1;
    var low := if fence >= 12 then fence - 12 else 0;
    while i >= low
      invariant -1 <= i < fence
      invariant StatusAbove(lines, fence, rules) == StatusFrom(lines, i, low, rules)
      decreases i
    {
      if rules.statusIn(lines[i]).Some? { return rules.statusIn(lines[i]); }
      i := i - 1;
    }
    return None;
  }

  /** Of the twelve lines above the fence, the nearest that states a status; none when none does. */
  lemma StatusIsNearest(lines: seq<string>, fence: nat, rules: Rules)
    requires fence <= |lines|
    ensures match StatusAbove(lines, fence, rules)
            case Some(status) => exists k: nat :: NearestStatus(lines, fence, rules, k, status)
            case None => forall k :: 0 <= k < fence <= k + 12 ==> rules.statusIn(lines[k]) == None
  {
    FromIsNearest(lines, fence, rules, fence - 1, if fence >= 12 then fence - 12 else 0);
  }

  lemma {:induction false} FromIsNearest(lines: seq<string>, fence: nat, rules: Rules, i: int, low: nat)
    requires i < fence <= |lines| && fence <= low + 12
    requires forall k :: i < k < fence && k >= 0 ==> rules.statusIn(lines[k]).None?
    ensures var r := StatusFrom(lines, i, low, rules);
            if r.Some? then exists k: nat :: NearestStatus(lines, fence, rules, k, r.value)
            else forall k :: low <= k < fence ==> rules.statusIn(lines[k]).None?
    decreases i - low
  {
    if i >= low {
      if rules.statusIn(lines[i]).Some? {
        var status := rules.statusIn(lines[i]).value;
        assert StatusFrom(lines, i, low, rules) == Some(status);
        assert NearestStatus(lines, fence, rules, i, status);
      } else {
        FromIsNearest(lines, fence, rules, i - 1, low);
      }
    }
  }

  // ---------- Sections: the page cut at its fences ----------

  /** `fences` are the page's fence lines, all of them, in order. */
  predicate TrueFences(lines: seq<string>, fences: seq<int>) {
    && (forall k :: 0 <= k < |fences| ==> 0 <= fences[k] < |lines| && IsFence(lines[fences[k]]))
    && (forall j, k :: 0 <= j < k < |fences| ==> fences[j] < fences[k])
    && forall i :: 0 <= i < |lines| && IsFence(lines[i]) ==> i in fences
  }

  predicate InOrder(lines: seq<string>, fences: seq<int>) {
    && (forall k :: 0 <= k < |fences| ==> 0 <= fences[k] < |lines|)
    && forall j, k :: 0 <= j < k < |fences| ==> fences[j] < fences[k]
  }

  /** The lines from one fence up to the next; the first section has no fence, the last no end. */
  function Section(lines: seq<string>, fences: seq<int>, k: nat): seq<string>
    requires InOrder(lines, fences) && k <= |fences|
  {
    lines[(if k == 0 then 0 else fences[k - 1])..(if k == |fences| then |lines| else fences[k])]
  }

  /** Odd sections that a fence closes are blocks. */
  predicate IsBlock(fences: seq<int>, k: nat) {
    k % 2 == 1 && k < |fences|
  }

  /** The section after the pass: a block is rebuilt, its status read from the finished page above it;
      everything else is as it was. */
  predicate SectionDone(was: seq<string>, wasFences: seq<int>, lines: seq<string>, fences: seq<int>, rules: Rules,
                        k: nat)
    requires InOrder(was, wasFences) && InOrder(lines, fences) && k <= |fences| == |wasFences|
  {
    var a, b := Section(was, wasFences, k), Section(lines, fences, k);
    if IsBlock(fences, k) then
      a != [] && b == [a[0]] + FixBlock(a[1..], StatusAbove(lines, fences[k - 1], rules), rules)
    else b == a
  }

  predicate SectionKept(was: seq<string>, wasFences: seq<int>, lines: seq<string>, fences: seq<int>, k: nat)
    requires InOrder(was, wasFences) && InOrder(lines, fences) && k <= |fences| == |wasFences|
  {
    Section(lines, fences, k) == Section(was, wasFences, k)
  }

  /** What splicing `out` in for the lines between fences `f` and `f + 1` leaves. */
  function Spliced(lines: seq<string>, fences: seq<int>, f: nat, out: seq<string>): seq<string>
    requires InOrder(lines, fences) && f + 1 < |fences|
  {
    lines[..fences[f] + 1] + out + lines[fences[f + 1]..]
  }

  function Moved(fences: seq<int>, f: nat, delta: int): (r: seq<int>)
    ensures |r| == |fences|
  {
    seq(|fences|, k requires 0 <= k < |fences| => if k <= f then fences[k] else fences[k] + delta)
  }

  function Delta(fences: seq<int>, f: nat, out: seq<string>): int
    requires f + 1 < |fences|
  {
    |out| - (fences[f + 1] - fences[f] - 1)
  }

  /** A moved fence index points at the line it pointed at before. */
  lemma SplicedLine(lines: seq<string>, fences: seq<int>, f: nat, out: seq<string>, i: nat)
    requires InOrder(lines, fences) && f + 1 < |fences| && i < |lines|
    requires i <= fences[f] || fences[f + 1] <= i
    ensures var j := if i <= fences[f] then i else i + Delta(fences, f, out);
            && 0 <= j < |Spliced(lines, fences, f, out)| && Spliced(lines, fences, f, out)[j] == lines[i]
            && (j <= fences[f] || fences[f] + |out| < j)
  {
  }

  /** The lines between two fences. */
  function Interior(lines: seq<string>, fences: seq<int>, f: nat): seq<string>
    requires InOrder(lines, fences) && f + 1 < |fences|
  {
    lines[fences[f] + 1..fences[f + 1]]
  }

  lemma BlockSection(lines: seq<string>, fences: seq<int>, f: nat)
    requires InOrder(lines, fences) && f + 1 < |fences|
    ensures Section(lines, fences, f + 1) == [lines[fences[f]]] + Interior(lines, fences, f)
  {
  }

  lemma BlockDone(was: seq<string>, wasFences: seq<int>, lines: seq<string>, fences: seq<int>, rules: Rules, f: nat,
                  fence: string, seg: seq<string>)
    requires InOrder(was, wasFences) && InOrder(lines, fences) && f + 1 < |fences| == |wasFences| && f % 2 == 0
    requires Section(was, wasFences, f + 1) == [fence] + seg
    requires Section(lines, fences, f + 1) == [fence] + FixBlock(seg, StatusAbove(lines, fences[f], rules), rules)
    ensures SectionDone(was, wasFences, lines, fences, rules, f + 1)
  {
    hide Section, FixBlock, StatusAbove;
    assert ([fence] + seg)[1..] == seg;
  }

  lemma MovedInOrder(lines: seq<string>, fences: seq<int>, f: nat, out: seq<string>)
    requires InOrder(lines, fences) && f + 1 < |fences|
    ensures InOrder(Spliced(lines, fences, f, out), Moved(fences, f, Delta(fences, f, out)))
  {
  }

  /** Splicing changes the block's own section and no other. */
  lemma SplicedSection(lines: seq<string>, fences: seq<int>, f: nat, out: seq<string>, k: nat)
    requires InOrder(lines, fences) && f + 1 < |fences| && k <= |fences|
    requires InOrder(Spliced(lines, fences, f, out), Moved(fences, f, Delta(fences, f, out)))
    ensures Section(Spliced(lines, fences, f, out), Moved(fences, f, Delta(fences, f, out)), k)
            == if k == f + 1 then [lines[fences[f]]] + out else Section(lines, fences, k)
  {
    if k == f + 1 {
      var moved := Moved(fences, f, Delta(fences, f, out));
      assert moved[f] == fences[f] && moved[f + 1] == fences[f] + 1 + |out|;
      hide Moved, Delta;
      SpliceMiddle(lines, fences[f], fences[f + 1], out);
    } else if k <= f {
      SectionAbove(lines, fences, f, out, k);
    } else {
      SectionBelow(lines, fences, f, out, k);
    }
  }

  lemma SectionAbove(lines: seq<string>, fences: seq<int>, f: nat, out: seq<string>, k: nat)
    requires InOrder(lines, fences) && f + 1 < |fences| && k <= f
    requires InOrder(Spliced(lines, fences, f, out), Moved(fences, f, Delta(fences, f, out)))
    ensures Section(Spliced(lines, fences, f, out), Moved(fences, f, Delta(fences, f, out)), k)
            == Section(lines, fences, k)
  {
    var moved := Moved(fences, f, Delta(fences, f, out));
    assert moved[k] == fences[k] && (k > 0 ==> moved[k - 1] == fences[k - 1]);
    hide Moved, Delta;
    SpliceHead(lines, fences[f], fences[f + 1], out, if k == 0 then 0 else fences[k - 1], fences[k]);
  }

  lemma SectionBelow(lines: seq<string>, fences: seq<int>, f: nat, out: seq<string>, k: nat)
    requires InOrder(lines, fences) && f + 1 < k <= |fences|
    requires InOrder(Spliced(lines, fences, f, out), Moved(fences, f, Delta(fences, f, out)))
    ensures Section(Spliced(lines, fences, f, out), Moved(fences, f, Delta(fences, f, out)), k)
            == Section(lines, fences, k)
  {
    var moved, d := Moved(fences, f, Delta(fences, f, out)), Delta(fences, f, out);
    assert moved[k - 1] == fences[k - 1] + d && (k < |fences| ==> moved[k] == fences[k] + d);
    assert |Spliced(lines, fences, f, out)| == |lines| + d;
    hide Moved;
    SpliceTail(lines, fences[f], fences[f + 1], out, fences[k - 1], if k == |fences| then |lines| else fences[k]);
  }

  lemma SpliceHead(lines: seq<string>, x: nat, y: nat, out: seq<string>, a: nat, b: nat)
    requires a <= b <= x < y < |lines|
    ensures (lines[..x + 1] + out + lines[y..])[a..b] == lines[a..b]
  {
  }

  lemma SpliceMiddle(lines: seq<string>, x: nat, y: nat, out: seq<string>)
    requires x < y < |lines|
    ensures (lines[..x + 1] + out + lines[y..])[x..x + 1 + |out|] == [lines[x]] + out
  {
  }

  lemma SpliceTail(lines: seq<string>, x: nat, y: nat, out: seq<string>, a: nat, b: nat)
    requires x < y <= a <= b <= |lines|
    ensures var d := |out| - (y - x - 1);
            b + d <= |lines[..x + 1] + out + lines[y..]|
            && (lines[..x + 1] + out + lines[y..])[a + d..b + d] == lines[a..b]
  {
    var head, tail := lines[..x + 1] + out, lines[y..];
    assert (head + tail)[|head| + (a - y)..|head| + (b - y)] == tail[a - y..b - y];
    assert tail[a - y..b - y] == lines[a..b];
  }

  lemma StatusLocal(lines: seq<string>, others: seq<string>, i: int, low: nat, rules: Rules)
    requires i < |lines| && i < |others| && forall k :: 0 <= k <= i ==> lines[k] == others[k]
    ensures StatusFrom(lines, i, low, rules) == StatusFrom(others, i, low, rules)
    decreases i - low
  {
    if i >= low { StatusLocal(lines, others, i - 1, low, rules); }
  }

  // ---------- No line the pass writes is a fence ----------

  lemma {:induction false} IndentIs(l: string, n: nat)
    requires n < |l| && Blank(l[..n]) && !IsSpace(l[n])
    ensures |Indent(l)| == n
  {
    if n > 0 {
      assert l[..n][0] == l[0] && l[1..][..n - 1] == l[..n][1..];
      IndentIs(l[1..], n - 1);
    }
  }

  lemma {:induction false} IndentPrefix(l: string)
    ensures Indent(l) <= l && (|Indent(l)| < |l| ==> !IsSpace(l[|Indent(l)|]))
  {
    if l != [] && IsSpace(l[0]) { IndentPrefix(l[1..]); }
  }

  lemma {:induction false} BarePrefix(l: string)
    ensures TrimEnd(l) <= l && Bare(l) <= l
  {
    if l != [] && IsSpace(l[|l| - 1]) { BarePrefix(l[..|l| - 1]); }
  }

  lemma InsertedIsNoFence(indent: string, text: string)
    requires Blank(indent) && text != [] && text[0] == '"'
    ensures !IsFence(indent + text)
  {
    assert (indent + text)[..|indent|] == indent;
    IndentIs(indent + text, |indent|);
    assert (indent + text)[|indent|] == '"';
  }

  lemma FenceAt(l: string, n: nat)
    requires n + 3 <= |l| && Blank(l[..n]) && l[n..n + 3] == "```"
    ensures IsFence(l)
  {
    assert l[n] == l[n..n + 3][0];
    IndentIs(l, n);
  }

  lemma CommaIsNoFence(l: string)
    ensures IsFence(WithComma(l)) ==> IsFence(l)
  {
    var m, n := WithComma(l), |Indent(WithComma(l))|;
    if IsFence(m) {
      IndentPrefix(m);
      BarePrefix(l);
      assert m[n..n + 3][2] == m[n + 2];
      assert l[..n] == m[..n] && l[n..n + 3] == m[n..n + 3];
      FenceAt(l, n);
    }
  }

  predicate NoFences(lines: seq<string>) {
    forall i :: 0 <= i < |lines| ==> !IsFence(lines[i])
  }

  predicate Members(added: seq<string>) {
    forall k :: 0 <= k < |added| ==> added[k] != [] && added[k][0] == '"'
  }

  lemma {:induction false} AddedNoFences(indent: string, added: seq<string>, more: bool, n: nat)
    requires n <= |added| && Blank(indent) && Members(added)
    ensures NoFences(AddedLines(indent, added, more, n))
  {
    if n > 0 {
      AddedNoFences(indent, added, more, n - 1);
      var text := added[n - 1] + if n < |added| || more then "," else "";
      InsertedIsNoFence(indent, text);
      assert indent + text == indent + added[n - 1] + if n < |added| || more then "," else "";
    }
  }

  lemma LineOutNoFences(seg: seq<string>, i: nat, plan: Plan)
    requires i < |seg| && plan.Rewrite? && Members(plan.added) && NoFences(seg)
    ensures NoFences(LineOut(seg, i, plan))
  {
    hide IsFence, SuccessFalse, WithComma, Indent;
    CommaIsNoFence(seg[i]);
    assert REQUEST_ID[0] == '"';
    InsertedIsNoFence(Indent(seg[i]), REQUEST_ID);
    AddedNoFences(Indent(seg[i]), plan.added, More(seg, i), |plan.added|);
  }

  lemma {:induction false} LinesOutNoFences(seg: seq<string>, plan: Plan, n: nat)
    requires n <= |seg| && plan.Rewrite? && Members(plan.added) && NoFences(seg)
    ensures NoFences(LinesOut(seg, plan, n))
  {
    hide LineOut, LinesOut, NoFences, Members;
    if n == 0 {
      NoneOut(seg, plan);
    } else {
      LinesOutNoFences(seg, plan, n - 1);
      LineOutNoFences(seg, n - 1, plan);
      LinesOutStep(seg, plan, n - 1);
      NoFencesConcat(LinesOut(seg, plan, n - 1), LineOut(seg, n - 1, plan));
    }
  }

  lemma NoneOut(seg: seq<string>, plan: Plan)
    requires plan.Rewrite?
    ensures LinesOut(seg, plan, 0) == [] && NoFences([])
  {
  }

  lemma NoFencesConcat(a: seq<string>, b: seq<string>)
    requires NoFences(a) && NoFences(b)
    ensures NoFences(a + b)
  {
    hide IsFence;
  }

  lemma PlanMembers(seg: seq<string>, status: Option<string>, rules: Rules)
    ensures PlanFor(seg, status, rules).Rewrite? ==> Members(PlanFor(seg, status, rules).added)
  {
    hide HasKey, SuccessFalse, Join, Anchor, CountWritten;
  }

  lemma FixedNoFences(seg: seq<string>, status: Option<string>, rules: Rules)
    requires NoFences(seg)
    ensures NoFences(FixBlock(seg, status, rules))
  {
    hide PlanFor, NoFences, Members;
    PlanMembers(seg, status, rules);
    var plan := PlanFor(seg, status, rules);
    if plan.Rewrite? { LinesOutNoFences(seg, plan, |seg|); }
  }

  /** The fence indices are still the page's fences after the splice. */
  lemma SplicedFences(lines: seq<string>, fences: seq<int>, f: nat, out: seq<string>)
    requires TrueFences(lines, fences) && f + 1 < |fences| && NoFences(out)
    requires InOrder(Spliced(lines, fences, f, out), Moved(fences, f, Delta(fences, f, out)))
    ensures TrueFences(Spliced(lines, fences, f, out), Moved(fences, f, Delta(fences, f, out)))
  {
    hide IsFence;
    var delta := Delta(fences, f, out);
    var after, moved := Spliced(lines, fences, f, out), Moved(fences, f, delta);
    forall i | 0 <= i < |after| && IsFence(after[i]) ensures i in moved {
      SplicedFrom(lines, fences, f, out, i);
      hide Spliced;
      var j := if i <= fences[f] then i else i - delta;
      var k :| 0 <= k < |fences| && fences[k] == j;
      assert moved[k] == i;
    }
    forall k | 0 <= k < |moved| ensures IsFence(after[moved[k]]) {
      SplicedLine(lines, fences, f, out, fences[k]);
    }
  }

  /** A fence line after the splice comes from a line outside the block. */
  lemma SplicedFrom(lines: seq<string>, fences: seq<int>, f: nat, out: seq<string>, i: nat)
    requires InOrder(lines, fences) && f + 1 < |fences| && NoFences(out)
    requires i < |Spliced(lines, fences, f, out)| && IsFence(Spliced(lines, fences, f, out)[i])
    ensures i <= fences[f] || fences[f] + |out| < i
    ensures var j := if i <= fences[f] then i else i - Delta(fences, f, out);
            0 <= j < |lines| && lines[j] == Spliced(lines, fences, f, out)[i]
  {
    hide IsFence;
    var after := Spliced(lines, fences, f, out);
    assert forall j :: 0 <= j < |out| ==> after[fences[f] + 1 + j] == out[j];
    assert i > fences[f] ==> after[fences[f] + 1 + (i - fences[f] - 1)] == after[i];
  }

  // ---------- The whole page ----------

  /** Up to fence `f` the page is finished, from there on it is as it was. */
  ghost predicate Progress(was: seq<string>, wasFences: seq<int>, lines: seq<string>, fences: seq<int>, rules: Rules,
                           f: nat)
  {
    && InOrder(was, wasFences) && TrueFences(lines, fences) && |fences| == |wasFences|
    && (forall k :: 0 <= k < f && k <= |fences| ==> SectionDone(was, wasFences, lines, fences, rules, k))
    && forall k :: f <= k <= |fences| ==> SectionKept(was, wasFences, lines, fences, k)
  }

  lemma TrueInOrder(lines: seq<string>, fences: seq<int>)
    requires TrueFences(lines, fences)
    ensures InOrder(lines, fences)
  {
  }

  /** A section finished before a splice further down is finished after it. */
  lemma DoneStays(was: seq<string>, wasFences: seq<int>, lines: seq<string>, fences: seq<int>, rules: Rules,
                  f: nat, out: seq<string>, k: nat)
    requires InOrder(was, wasFences) && InOrder(lines, fences) && k <= f && f + 1 < |fences| == |wasFences|
    requires SectionDone(was, wasFences, lines, fences, rules, k)
    requires InOrder(Spliced(lines, fences, f, out), Moved(fences, f, Delta(fences, f, out)))
    ensures SectionDone(was, wasFences, Spliced(lines, fences, f, out), Moved(fences, f, Delta(fences, f, out)), rules,
                        k)
  {
    hide FixBlock, Section, StatusFrom;
    var after, moved := Spliced(lines, fences, f, out), Moved(fences, f, Delta(fences, f, out));
    SplicedSection(lines, fences, f, out, k);
    if IsBlock(fences, k) {
      var fence := fences[k - 1];
      assert forall i :: 0 <= i < fence ==> after[i] == lines[i];
      StatusLocal(lines, after, fence - 1, if fence >= 12 then fence - 12 else 0, rules);
    }
  }

  lemma Unspliced(was: seq<string>, wasFences: seq<int>, lines: seq<string>, fences: seq<int>, rules: Rules, f: nat)
    requires Progress(was, wasFences, lines, fences, rules, f) && f % 2 == 0 && f + 1 < |fences|
             && InOrder(lines, fences)
    requires FixBlock(Interior(lines, fences, f), StatusAbove(lines, fences[f], rules), rules)
             == Interior(lines, fences, f)
    ensures Progress(was, wasFences, lines, fences, rules, f + 2)
  {
    hide FixBlock, IsFence, StatusAbove, Section, Interior;
    assert SectionKept(was, wasFences, lines, fences, f) && SectionKept(was, wasFences, lines, fences, f + 1);
    BlockSection(lines, fences, f);
    BlockDone(was, wasFences, lines, fences, rules, f, lines[fences[f]], Interior(lines, fences, f));
  }

  lemma Respliced(was: seq<string>, wasFences: seq<int>, lines: seq<string>, fences: seq<int>, rules: Rules, f: nat,
                  out: seq<string>)
    requires Progress(was, wasFences, lines, fences, rules, f) && f % 2 == 0 && f + 1 < |fences|
             && InOrder(lines, fences)
    requires out == FixBlock(Interior(lines, fences, f), StatusAbove(lines, fences[f], rules), rules)
    ensures Progress(was, wasFences, Spliced(lines, fences, f, out), Moved(fences, f, Delta(fences, f, out)), rules,
                     f + 2)
  {
    hide IsFence, StatusAbove, FixBlock;
    TrueInOrder(lines, fences);
    var after, moved := Spliced(lines, fences, f, out), Moved(fences, f, Delta(fences, f, out));
    MovedInOrder(lines, fences, f, out);
    InteriorNoFences(lines, fences, f);
    FixedNoFences(Interior(lines, fences, f), StatusAbove(lines, fences[f], rules), rules);
    SplicedFences(lines, fences, f, out);
    forall k: nat | k < f + 2 ensures SectionDone(was, wasFences, after, moved, rules, k) {
      if k < f {
        DoneStays(was, wasFences, lines, fences, rules, f, out, k);
      } else {
        SectionRewritten(was, wasFences, lines, fences, rules, f, out, k);
      }
    }
    forall k: nat | f + 2 <= k <= |fences| ensures SectionKept(was, wasFences, after, moved, k) {
      assert SectionKept(was, wasFences, lines, fences, k);
      SplicedSection(lines, fences, f, out, k);
    }
  }

  lemma InteriorNoFences(lines: seq<string>, fences: seq<int>, f: nat)
    requires TrueFences(lines, fences) && f + 1 < |fences|
    ensures InOrder(lines, fences) && NoFences(Interior(lines, fences, f))
  {
    hide IsFence;
    forall i | fences[f] < i < fences[f + 1] ensures !IsFence(lines[i]) {
      if IsFence(lines[i]) {
        var k :| 0 <= k < |fences| && fences[k] == i;
        assert false;
      }
    }
  }

  /** The section before the block and the block itself, once it has been spliced. */
  lemma SectionRewritten(was: seq<string>, wasFences: seq<int>, lines: seq<string>, fences: seq<int>, rules: Rules,
                         f: nat, out: seq<string>, k: nat)
    requires Progress(was, wasFences, lines, fences, rules, f) && f % 2 == 0 && f + 1 < |fences| && f <= k <= f + 1
    requires InOrder(lines, fences)
             && out == FixBlock(Interior(lines, fences, f), StatusAbove(lines, fences[f], rules), rules)
    requires InOrder(Spliced(lines, fences, f, out), Moved(fences, f, Delta(fences, f, out)))
    ensures SectionDone(was, wasFences, Spliced(lines, fences, f, out), Moved(fences, f, Delta(fences, f, out)), rules,
                        k)
  {
    hide FixBlock, IsFence, Section, Interior, StatusAbove, TrueFences, Spliced, Moved;
    assert SectionKept(was, wasFences, lines, fences, k);
    var after, moved := Spliced(lines, fences, f, out), Moved(fences, f, Delta(fences, f, out));
    SplicedSection(lines, fences, f, out, k);
    if k == f + 1 {
      SplicedStatus(lines, fences, f, out, rules);
      BlockSection(lines, fences, f);
      BlockDone(was, wasFences, after, moved, rules, f, lines[fences[f]], Interior(lines, fences, f));
    }
  }

  lemma SplicedStatus(lines: seq<string>, fences: seq<int>, f: nat, out: seq<string>, rules: Rules)
    requires InOrder(lines, fences) && f + 1 < |fences|
    ensures var after, moved := Spliced(lines, fences, f, out), Moved(fences, f, Delta(fences, f, out));
            moved[f] == fences[f] < |after|
            && StatusAbove(after, moved[f], rules) == StatusAbove(lines, fences[f], rules)
  {
    var after, fence := Spliced(lines, fences, f, out), fences[f];
    assert forall i :: 0 <= i < fence ==> after[i] == lines[i];
    StatusLocal(lines, after, fence - 1, if fence >= 12 then fence - 12 else 0, rules);
  }

  /** Every section of the page is done. */
  ghost predicate PageDone(was: seq<string>, wasFences: seq<int>, lines: seq<string>, fences: seq<int>, rules: Rules) {
    && InOrder(was, wasFences) && InOrder(lines, fences) && |fences| == |wasFences|
    && forall k :: 0 <= k <= |fences| ==> SectionDone(was, wasFences, lines, fences, rules, k)
  }

  /** One block: leave it, or splice its new lines in and move the fences behind it. */
  method FixOne(ghost page: seq<string>, ghost wasFences: seq<int>, lines: seq<string>, fences: seq<int>, rules: Rules,
                f: nat)
    returns (after: seq<string>, moved: seq<int>)
    requires Progress(page, wasFences, lines, fences, rules, f) && f % 2 == 0 && f + 1 < |fences|
    ensures Progress(page, wasFences, after, moved, rules, f + 2) && |moved| == |fences|
  {
    hide IsFence, PlanFor, LinesOut, Interior, StatusAbove, Spliced, Moved, TrueFences, Progress, FixBlock, InOrder,
         Delta;
    ProgressOrder(page, wasFences, lines, fences, rules, f);
    InteriorIs(lines, fences, f);
    var start, end := fences[f], fences[f + 1];
    var seg := lines[start + 1..end];
    var status := FindStatus(lines, start, rules);
    var plan := PlanFor(seg, status, rules);
    FixedIs(seg, status, rules);
    if plan.Leave? {
      Unspliced(page, wasFences, lines, fences, rules, f);
      return lines, fences;
    }
    var out := RewriteBlock(seg, plan);
    after := Spliced(lines, fences, f, out);
    moved := ShiftFences(fences, f, Delta(fences, f, out));
    Respliced(page, wasFences, lines, fences, rules, f, out);
  }

  /** The main loop. The fence indices are moved along with every splice, and stay the page's fences. */
  method FixPage(page: seq<string>, rules: Rules)
    returns (lines: seq<string>, ghost wasFences: seq<int>, fences: seq<int>)
    ensures TrueFences(page, wasFences) && TrueFences(lines, fences)
    ensures PageDone(page, wasFences, lines, fences, rules)
  {
    lines := page;
    fences := FindFences(page);
    wasFences := fences;
    StartKept(page, fences, rules);
    hide TrueFences, Progress, PageDone;
    var f := 0;
    while f + 1 < |fences|
      invariant f % 2 == 0 && f <= |fences| + 1
      invariant Progress(page, wasFences, lines, fences, rules, f)
      decreases |fences| - f
    {
      lines, fences := FixOne(page, wasFences, lines, fences, rules, f);
      f := f + 2;
    }
    Finished(page, wasFences, lines, fences, rules, f);
  }

  lemma FixedIs(seg: seq<string>, status: Option<string>, rules: Rules)
    ensures var plan := PlanFor(seg, status, rules);
            FixBlock(seg, status, rules) == if plan.Leave? then seg else LinesOut(seg, plan, |seg|)
  {
    hide PlanFor, LinesOut;
  }

  lemma InteriorIs(lines: seq<string>, fences: seq<int>, f: nat)
    requires InOrder(lines, fences) && f + 1 < |fences|
    ensures 0 <= fences[f] < fences[f + 1] < |lines|
            && Interior(lines, fences, f) == lines[fences[f] + 1..fences[f + 1]]
  {
  }

  lemma ProgressOrder(was: seq<string>, wasFences: seq<int>, lines: seq<string>, fences: seq<int>, rules: Rules, f: nat)
    requires Progress(was, wasFences, lines, fences, rules, f)
    ensures InOrder(lines, fences)
  {
    hide IsFence;
  }

  lemma StartKept(page: seq<string>, fences: seq<int>, rules: Rules)
    requires TrueFences(page, fences)
    ensures Progress(page, fences, page, fences, rules, 0)
  {
    hide IsFence, Section;
  }

  lemma Finished(was: seq<string>, wasFences: seq<int>, lines: seq<string>, fences: seq<int>, rules: Rules, f: nat)
    requires Progress(was, wasFences, lines, fences, rules, f) && f % 2 == 0 && |fences| <= f + 1 && f <= |fences| + 1
    ensures PageDone(was, wasFences, lines, fences, rules) && TrueFences(lines, fences)
  {
    hide IsFence, Section, FixBlock;
    TrueInOrder(lines, fences);
    forall k | 0 <= k <= |fences| ensures SectionDone(was, wasFences, lines, fences, rules, k) {
      if k >= f { assert SectionKept(was, wasFences, lines, fences, k); }
    }
  }

  method FindFences(lines: seq<string>) returns (fences: seq<int>)
    ensures TrueFences(lines, fences)
  {
    hide IsFence;
    fences := [];
    for i := 0 to |lines|
      invariant forall k :: 0 <= k < |fences| ==> 0 <= fences[k] < i && IsFence(lines[fences[k]])
      invariant forall j, k :: 0 <= j < k < |fences| ==> fences[j] < fences[k]
      invariant forall j :: 0 <= j < i && IsFence(lines[j]) ==> j in fences
    {
      if IsFence(lines[i]) { fences := fences + [i]; }
    }
  }

  /** `for (let k = f + 1; …) fences[k] += delta`. */
  method ShiftFences(fences: seq<int>, f: nat, delta: int) returns (r: seq<int>)
    requires f + 1 < |fences|
    ensures r == Moved(fences, f, delta)
  {
    r := fences;
    for k := f + 1 to |fences|
      invariant |r| == |fences|
      invariant forall j :: 0 <= j < |fences| ==> r[j] == if f < j < k then fences[j] + delta else fences[j]
    {
      r := r[k := r[k] + delta];
    }
  }

  // ---------- A rewritten block holds its own lines ----------

  predicate StartsWith(l: string, prefix: string) {
    |prefix| <= |l| && l[..|prefix|] == prefix
  }

  /** A line the pass may write behind `of`: one of the three members, as far in as `of`. */
  predicate Inserted(l: string, of: string) {
    || StartsWith(l, Indent(of) + "\"requestId\": ")
    || StartsWith(l, Indent(of) + "\"statusCode\": ")
    || StartsWith(l, Indent(of) + "\"category\": ")
  }

  /** `b` is `a`'s lines, all of them and in order, but for trailing commas, with inserted lines behind some. */
  ghost predicate Grown(a: seq<string>, b: seq<string>) {
    if a == [] then b == []
    else exists m: nat :: m < |b| && Grown(a[..|a| - 1], b[..m]) && GrownLine(a[|a| - 1], b[m..])
  }

  predicate GrownLine(l: string, b: seq<string>) {
    b != [] && SameLine(l, b[0]) && forall k :: 0 < k < |b| ==> Inserted(b[k], l)
  }

  predicate Known(added: seq<string>) {
    forall k :: 0 <= k < |added| ==> StartsWith(added[k], "\"statusCode\": ") || StartsWith(added[k], "\"category\": ")
  }

  lemma InsertedBehind(of: string, text: string, prefix: string, end: string)
    requires StartsWith(text, prefix)
    ensures StartsWith(Indent(of) + text + end, Indent(of) + prefix)
  {
  }

  lemma {:induction false} AddedInserted(of: string, added: seq<string>, more: bool, n: nat)
    requires n <= |added| && Known(added)
    ensures forall k :: 0 <= k < n ==> Inserted(AddedLines(Indent(of), added, more, n)[k], of)
  {
    if n > 0 {
      AddedInserted(of, added, more, n - 1);
      var end := if n < |added| || more then "," else "";
      hide StartsWith, Indent;
      if StartsWith(added[n - 1], "\"statusCode\": ") {
        InsertedBehind(of, added[n - 1], "\"statusCode\": ", end);
      } else {
        InsertedBehind(of, added[n - 1], "\"category\": ", end);
      }
    }
  }

  lemma LineGrows(seg: seq<string>, i: nat, plan: Plan)
    requires i < |seg| && plan.Rewrite? && Known(plan.added)
    ensures GrownLine(seg[i], LineOut(seg, i, plan))
  {
    var l := seg[i];
    CommaOnly(l);
    assert StartsWith(REQUEST_ID, "\"requestId\": ") by { assert REQUEST_ID[..13] == "\"requestId\": "; }
    InsertedBehind(l, REQUEST_ID, "\"requestId\": ", "");
    assert Indent(l) + REQUEST_ID + "" == Indent(l) + REQUEST_ID;
    AddedInserted(l, plan.added, More(seg, i), |plan.added|);
  }

  lemma LinesOutStep(seg: seq<string>, plan: Plan, n: nat)
    requires n < |seg| && plan.Rewrite?
    ensures LinesOut(seg, plan, n + 1) == LinesOut(seg, plan, n) + LineOut(seg, n, plan)
  {
    hide LineOut;
  }

  lemma {:induction false} LinesGrow(seg: seq<string>, plan: Plan, n: nat)
    requires n <= |seg| && plan.Rewrite? && Known(plan.added)
    ensures Grown(seg[..n], LinesOut(seg, plan, n))
  {
    hide Grown, GrownLine, LineOut, LinesOut, Known;
    if n == 0 {
      GrownNone(seg, plan);
    } else {
      LinesGrow(seg, plan, n - 1);
      LineGrows(seg, n - 1, plan);
      LinesOutStep(seg, plan, n - 1);
      TakeStep(seg, n - 1);
      GrownSnoc(seg[..n - 1], seg[n - 1], LinesOut(seg, plan, n - 1), LineOut(seg, n - 1, plan), seg[..n],
                LinesOut(seg, plan, n));
    }
  }

  lemma GrownNone(seg: seq<string>, plan: Plan)
    requires plan.Rewrite?
    ensures Grown(seg[..0], LinesOut(seg, plan, 0))
  {
  }

  lemma TakeStep(seg: seq<string>, n: nat)
    requires n < |seg|
    ensures seg[..n + 1] == seg[..n] + [seg[n]]
  {
  }

  lemma GrownSnoc(a: seq<string>, l: string, b: seq<string>, c: seq<string>, al: seq<string>, bc: seq<string>)
    requires Grown(a, b) && GrownLine(l, c) && al == a + [l] && bc == b + c
    ensures Grown(al, bc)
  {
    hide GrownLine;
    assert c != [] by { GrownSome(l, c); }
    assert (a + [l])[..|a|] == a && (b + c)[..|b|] == b && (b + c)[|b|..] == c;
  }

  lemma GrownSome(l: string, b: seq<string>)
    requires GrownLine(l, b)
    ensures b != []
  {
  }

  lemma {:induction false} GrownItself(a: seq<string>)
    ensures Grown(a, a)
  {
    if a != [] {
      GrownItself(a[..|a| - 1]);
      assert GrownLine(a[|a| - 1], [a[|a| - 1]]);
      hide Grown, GrownLine;
      GrownSnoc(a[..|a| - 1], a[|a| - 1], a[..|a| - 1], [a[|a| - 1]], a, a);
    }
  }

  lemma PlanKnown(seg: seq<string>, status: Option<string>, rules: Rules)
    ensures PlanFor(seg, status, rules).Rewrite? ==> Known(PlanFor(seg, status, rules).added)
  {
    hide HasKey, SuccessFalse, Join, Anchor, CountWritten;
  }

  /** Whatever the page says above it, a block keeps its lines, in order and equal up to one trailing comma. */
  lemma BlockKeepsItsLines(seg: seq<string>, status: Option<string>, rules: Rules)
    ensures Grown(seg, FixBlock(seg, status, rules))
  {
    GrownItself(seg);
    PlanKnown(seg, status, rules);
    hide PlanFor, Grown, Known;
    var plan := PlanFor(seg, status, rules);
    if plan.Rewrite? {
      LinesGrow(seg, plan, |seg|);
      assert seg[..|seg|] == seg;
    }
  }

  // ---------- Commas ----------

  predicate EndsWith(l: string, c: char) {
    var t := TrimEnd(l);
    t != [] && t[|t| - 1] == c
  }

  predicate Opens(l: string) {
    EndsWith(l, '{') || EndsWith(l, '[')
  }

  /** A line of JSON with one member a line: a comma exactly when something follows in its object, and
      never one behind an opening bracket. */
  predicate CommaRight(seg: seq<string>, i: nat)
    requires i < |seg|
  {
    Blank(seg[i]) || Opens(seg[i]) || (!Opens(Bare(seg[i])) && (EndsWith(seg[i], ',') <==> More(seg, i)))
  }

  predicate CommasRight(seg: seq<string>) {
    forall i :: 0 <= i < |seg| ==> CommaRight(seg, i)
  }

  lemma EndsPlainly(l: string)
    requires l != [] && !IsSpace(l[|l| - 1])
    ensures !Blank(l) && forall c :: EndsWith(l, c) <==> c == l[|l| - 1]
  {
    assert TrimEnd(l) == l;
  }

  lemma FirstCharAt(l: string, n: nat)
    requires n < |l| && Blank(l[..n]) && !IsSpace(l[n])
    ensures Closes(l) <==> l[n] == '}' || l[n] == ']'
  {
    IndentIs(l, n);
  }

  lemma CommaCloses(l: string)
    requires !Blank(l)
    ensures Closes(WithComma(l)) <==> Closes(l)
  {
    var n, m := |Indent(l)|, WithComma(l);
    IndentPrefix(l);
    BarePrefix(l);
    assert l[..|l|] == l && l[..n] == Indent(l);
    FirstCharAt(l, n);
    TrimKeepsFirst(l, n);
    if n < |Bare(l)| {
      assert m[..n] == l[..n] && m[n] == l[n];
    } else {
      assert m[..n] == l[..n] && m[n] == ',' && l[n] == ',';
    }
    FirstCharAt(m, n);
  }

  /** Trimming keeps the first character there is, and the comma goes only when that is all. */
  lemma {:induction false} TrimKeepsFirst(l: string, n: nat)
    requires n < |l| && !IsSpace(l[n])
    ensures TrimEnd(l) <= l && n < |TrimEnd(l)| && n <= |Bare(l)| && (n == |Bare(l)| ==> l[n] == ',')
  {
    if IsSpace(l[|l| - 1]) { TrimKeepsFirst(l[..|l| - 1], n); }
  }

  lemma CommaLine(l: string)
    ensures !Blank(WithComma(l)) && EndsWith(WithComma(l), ',') && !Opens(WithComma(l))
    ensures Bare(WithComma(l)) == Bare(l)
  {
    EndsPlainly(WithComma(l));
    assert TrimEnd(WithComma(l)) == WithComma(l);
  }

  /** Taking a comma off a line in order leaves an opening bracket at its end only if there was one. */
  lemma BareOpens(seg: seq<string>, i: nat)
    requires i < |seg| && CommaRight(seg, i) && !Blank(seg[i])
    ensures Opens(Bare(seg[i])) <==> Opens(seg[i])
  {
    if Opens(seg[i]) { OpensBare(seg[i]); }
  }

  lemma OpensBare(l: string)
    requires Opens(l)
    ensures Opens(Bare(l))
  {
    TrimTwice(l);
  }

  lemma {:induction false} TrimTwice(l: string)
    ensures TrimEnd(TrimEnd(l)) == TrimEnd(l)
  {
    if l != [] && IsSpace(l[|l| - 1]) { TrimTwice(l[..|l| - 1]); }
  }

  // The commas of a rewritten block: `out` is the block as it comes out, `Pos(i)` where line `i` lands.

  function Pos(seg: seq<string>, plan: Plan, i: nat): nat
    requires i <= |seg| && plan.Rewrite?
  {
    |LinesOut(seg, plan, i)|
  }

  /** The lines the pass puts a comma and a member behind. */
  predicate Touched(seg: seq<string>, plan: Plan, i: nat)
    requires i < |seg| && plan.Rewrite?
  {
    (plan.needsReq && SuccessFalse(seg[i])) || (i == plan.anchor && plan.added != [])
  }

  predicate WrittenAnchor(seg: seq<string>, plan: Plan)
    requires plan.Rewrite?
  {
    plan.anchor < |seg| && !Blank(seg[plan.anchor])
  }

  predicate PlainEnd(c: char) {
    !IsSpace(c) && c != ',' && c != '{' && c != '['
  }

  predicate PlainMember(text: string) {
    |text| > 1 && text[0] == '"' && PlainEnd(text[|text| - 1])
  }

  predicate PlainMembers(added: seq<string>) {
    forall k :: 0 <= k < |added| ==> PlainMember(added[k])
  }

  /** A member by itself on its line. */
  predicate MemberLine(l: string, comma: bool) {
    !Blank(l) && !Closes(l) && !Opens(l) && !Opens(Bare(l)) && (EndsWith(l, ',') <==> comma)
  }

  lemma InsertedLine(indent: string, text: string, comma: bool)
    requires Blank(indent) && PlainMember(text)
    ensures MemberLine(indent + text + if comma then "," else "", comma)
  {
    var whole := indent + text;
    EndsPlainly(whole);
    assert whole[..|indent|] == indent;
    FirstCharAt(whole, |indent|);
    assert TrimEnd(whole) == whole == Bare(whole);
    if comma {
      CommaLine(whole);
      CommaCloses(whole);
    } else {
      assert whole + "" == whole;
    }
  }

  lemma AddedLine(indent: string, added: seq<string>, more: bool, n: nat, k: nat)
    requires k < n <= |added| && Blank(indent) && PlainMembers(added)
    ensures MemberLine(AddedLines(indent, added, more, n)[k], k + 1 < |added| || more)
  {
    hide MemberLine, PlainMember, Blank;
    if k < n - 1 {
      AddedLine(indent, added, more, n - 1, k);
    } else {
      InsertedLine(indent, added[k], n < |added| || more);
    }
  }

  lemma RequestLine(l: string)
    ensures MemberLine(RequestText(l), true)
  {
    var text := REQUEST_ID[..|REQUEST_ID| - 1];
    assert REQUEST_ID == text + ",";
    InsertedLine(Indent(l), text, true);
    assert RequestText(l) == Indent(l) + text + ",";
  }

  /** Where line `i`'s lines stand in the whole. */
  lemma {:induction false} OutAt(seg: seq<string>, plan: Plan, i: nat, n: nat)
    requires i < n <= |seg| && plan.Rewrite?
    ensures Pos(seg, plan, i + 1) == Pos(seg, plan, i) + |LineOut(seg, i, plan)| <= |LinesOut(seg, plan, n)|
    ensures LinesOut(seg, plan, n)[Pos(seg, plan, i)..Pos(seg, plan, i + 1)] == LineOut(seg, i, plan)
  {
    hide LineOut;
    if i < n - 1 {
      OutAt(seg, plan, i, n - 1);
      var a, b := LinesOut(seg, plan, n - 1), LineOut(seg, n - 1, plan);
      assert (a + b)[..|a|] == a;
      assert (a + b)[Pos(seg, plan, i)..Pos(seg, plan, i + 1)] == a[Pos(seg, plan, i)..Pos(seg, plan, i + 1)];
    } else {
      var a, b := LinesOut(seg, plan, i), LineOut(seg, i, plan);
      assert (a + b)[|a|..|a| + |b|] == b;
    }
  }

  predicate MoreFrom(seg: seq<string>, n: nat) {
    var next := NextWritten(seg, n);
    next.Some? && !Closes(seg[next.value])
  }

  /** What follows line `n - 1` in the block still follows it, a member or a closing bracket. */
  lemma {:induction false} MoreKept(seg: seq<string>, plan: Plan, n: nat)
    requires n <= |seg| && plan.Rewrite? && WrittenAnchor(seg, plan)
    ensures MoreFrom(LinesOut(seg, plan, |seg|), Pos(seg, plan, n)) <==> MoreFrom(seg, n)
    decreases |seg| - n
  {
    hide Closes, Blank, Pos, LinesOut, LineOut, MoreFrom, Touched, WrittenAnchor;
    if n < |seg| {
      MoreKept(seg, plan, n + 1);
      HeadKept(seg, plan, n);
      HeadAt(seg, plan, n);
      MoreLocal(LinesOut(seg, plan, |seg|), Pos(seg, plan, n), Pos(seg, plan, n + 1), seg, n);
    } else {
      NoMore(seg);
      PosEnd(seg, plan);
      NoMore(LinesOut(seg, plan, |seg|));
    }
  }

  lemma NoMore(seg: seq<string>)
    ensures !MoreFrom(seg, |seg|)
  {
  }

  lemma PosEnd(seg: seq<string>, plan: Plan)
    requires plan.Rewrite?
    ensures Pos(seg, plan, |seg|) == |LinesOut(seg, plan, |seg|)|
  {
  }

  lemma MoreLocal(out: seq<string>, p: nat, q: nat, seg: seq<string>, n: nat)
    requires n < |seg| && p < |out|
    requires (Blank(out[p]) <==> Blank(seg[n])) && (Closes(out[p]) <==> Closes(seg[n]))
    requires Blank(seg[n]) ==> q == p + 1
    requires MoreFrom(out, q) <==> MoreFrom(seg, n + 1)
    ensures MoreFrom(out, p) <==> MoreFrom(seg, n)
  {
    hide Closes, Blank, MoreFrom;
    MoreStep(out, p);
    MoreStep(seg, n);
  }

  lemma HeadAt(seg: seq<string>, plan: Plan, i: nat)
    requires i < |seg| && plan.Rewrite?
    ensures var out, p := LinesOut(seg, plan, |seg|), Pos(seg, plan, i);
            && p < |out| && out[p] == LineOut(seg, i, plan)[0]
            && Pos(seg, plan, i + 1) == p + |LineOut(seg, i, plan)|
  {
    hide LineOut;
    OutAt(seg, plan, i, |seg|);
    var out, p := LinesOut(seg, plan, |seg|), Pos(seg, plan, i);
    hide LinesOut, Pos;
    assert out[p] == out[p..Pos(seg, plan, i + 1)][0];
  }

  lemma MoreStep(seg: seq<string>, n: nat)
    requires n < |seg|
    ensures MoreFrom(seg, n) <==> if Blank(seg[n]) then MoreFrom(seg, n + 1) else !Closes(seg[n])
  {
  }

  lemma SuccessWritten(l: string)
    requires SuccessFalse(l)
    ensures !Blank(l)
  {
    var p: nat, q: nat :| p < |l| && q < |l| && SuccessFalseAt(l, p, q);
    assert l[q] == ':';
  }

  lemma HeadKept(seg: seq<string>, plan: Plan, i: nat)
    requires i < |seg| && plan.Rewrite? && WrittenAnchor(seg, plan)
    ensures var h := LineOut(seg, i, plan)[0];
            && (Blank(h) <==> Blank(seg[i])) && (Closes(h) <==> Closes(seg[i]))
    ensures !Touched(seg, plan, i) ==> LineOut(seg, i, plan) == [seg[i]]
    ensures Touched(seg, plan, i) ==> !Blank(seg[i])
  {
    hide Closes, Blank, WithComma, Opens;
    if Touched(seg, plan, i) {
      if SuccessFalse(seg[i]) { SuccessWritten(seg[i]); }
      hide SuccessFalse;
      CommaLine(seg[i]);
      CommaCloses(seg[i]);
    }
  }

  lemma MoreIs(seg: seq<string>, i: nat)
    ensures More(seg, i) <==> MoreFrom(seg, i + 1)
  {
  }

  /** The line behind is written and opens no bracket's end, so there is more. */
  lemma MoreNext(out: seq<string>, j: nat)
    requires j + 1 < |out| && !Blank(out[j + 1]) && !Closes(out[j + 1])
    ensures More(out, j)
  {
    MoreStep(out, j + 1);
  }

  lemma OutLine(seg: seq<string>, plan: Plan, i: nat, k: nat)
    requires i < |seg| && plan.Rewrite? && k < |LineOut(seg, i, plan)|
    ensures Pos(seg, plan, i) + k < |LinesOut(seg, plan, |seg|)|
    ensures LinesOut(seg, plan, |seg|)[Pos(seg, plan, i) + k] == LineOut(seg, i, plan)[k]
  {
    hide LinesOut, Pos, LineOut;
    OutAt(seg, plan, i, |seg|);
    var out, p := LinesOut(seg, plan, |seg|), Pos(seg, plan, i);
    assert out[p + k] == out[p..Pos(seg, plan, i + 1)][k];
  }

  predicate RightBetween(out: seq<string>, a: nat, b: nat) {
    b <= |out| && forall j :: a <= j < b ==> CommaRight(out, j)
  }

  /** The two ways to go wrong: a comma behind a bracket the line opens, and the request id behind the
      last member of its object. */
  predicate LineRight(seg: seq<string>, plan: Plan, i: nat)
    requires i < |seg| && plan.Rewrite?
  {
    && (Touched(seg, plan, i) ==> !Opens(seg[i]))
    && (plan.needsReq && SuccessFalse(seg[i]) ==> More(seg, i))
  }

  lemma UntouchedCommas(seg: seq<string>, plan: Plan, i: nat)
    requires i < |seg| && plan.Rewrite? && WrittenAnchor(seg, plan) && CommaRight(seg, i) && !Touched(seg, plan, i)
    ensures var out := LinesOut(seg, plan, |seg|);
            RightBetween(out, Pos(seg, plan, i), Pos(seg, plan, i + 1)) && LineRight(seg, plan, i)
  {
    hide Pos, LinesOut, LineOut, Blank, Opens, EndsWith, More, MoreFrom, WrittenAnchor, SuccessFalse;
    HeadKept(seg, plan, i);
    HeadAt(seg, plan, i);
    MoreKept(seg, plan, i + 1);
    MoreIs(seg, i);
    MoreIs(LinesOut(seg, plan, |seg|), Pos(seg, plan, i));
  }

  /** A line with its comma and `m` members behind it, of which only the last can be wrong. */
  lemma MembersBehind(out: seq<string>, p: nat, m: nat, last: bool)
    requires 0 < m && p + m < |out| && EndsWith(out[p], ',')
    requires forall k :: p < k <= p + m ==> MemberLine(out[k], k < p + m || last)
    requires !Blank(out[p]) && !Opens(out[p])
    ensures RightBetween(out, p, p + 1 + m) <==> !Opens(Bare(out[p])) && (last <==> MoreFrom(out, p + 1 + m))
  {
    hide Blank, Closes, Opens, EndsWith, Bare;
    forall j | p <= j < p + m ensures More(out, j) {
      assert MemberLine(out[j + 1], j + 1 < p + m || last);
      MoreNext(out, j);
    }
    assert CommaRight(out, p) <==> !Opens(Bare(out[p]));
    forall j | p < j < p + m ensures CommaRight(out, j) {
      assert MemberLine(out[j], true);
    }
    assert MemberLine(out[p + m], last);
    MoreIs(out, p + m);
    hide More, MoreFrom;
    assert CommaRight(out, p + m) <==> (last <==> More(out, p + m));
  }

  lemma AnchorWritten(seg: seq<string>, plan: Plan)
    requires plan.Rewrite? && WrittenAnchor(seg, plan)
    ensures !Blank(seg[plan.anchor])
  {
  }

  lemma RequestOut(seg: seq<string>, plan: Plan, i: nat)
    requires i < |seg| && plan.Rewrite? && plan.needsReq && SuccessFalse(seg[i])
    ensures LineOut(seg, i, plan) == [WithComma(seg[i]), RequestText(seg[i])]
  {
    hide SuccessFalse, WithComma, RequestText;
  }

  lemma AnchorOut(seg: seq<string>, plan: Plan, i: nat)
    requires i < |seg| && plan.Rewrite?
    requires i == plan.anchor && plan.added != [] && !(plan.needsReq && SuccessFalse(seg[i]))
    ensures var lines := AddedLines(Indent(seg[i]), plan.added, More(seg, i), |plan.added|);
            |lines| == |plan.added| && LineOut(seg, i, plan) == [WithComma(seg[i])] + lines
    ensures Blank(Indent(seg[i]))
  {
    hide SuccessFalse, WithComma, Indent, More, AddedLines;
  }

  lemma RequestCommas(seg: seq<string>, plan: Plan, i: nat)
    requires i < |seg| && plan.Rewrite? && WrittenAnchor(seg, plan) && plan.needsReq && SuccessFalse(seg[i])
    requires CommaRight(seg, i)
    ensures var out := LinesOut(seg, plan, |seg|);
            RightBetween(out, Pos(seg, plan, i), Pos(seg, plan, i + 1)) <==> LineRight(seg, plan, i)
  {
    hide Pos, LinesOut, LineOut, Blank, Opens, EndsWith, More, MoreFrom, WrittenAnchor, SuccessFalse, WithComma,
         RequestText, Closes, RightBetween, MemberLine, Bare, CommaRight;
    var out, p := LinesOut(seg, plan, |seg|), Pos(seg, plan, i);
    SuccessWritten(seg[i]);
    BareOpens(seg, i);
    RequestOut(seg, plan, i);
    CommaLine(seg[i]);
    RequestLine(seg[i]);
    HeadAt(seg, plan, i);
    OutLine(seg, plan, i, 1);
    MoreKept(seg, plan, i + 1);
    MoreIs(seg, i);
    MembersBehind(out, p, 1, true);
  }

  lemma LineRightAtAnchor(seg: seq<string>, plan: Plan, i: nat)
    requires i < |seg| && plan.Rewrite?
    requires i == plan.anchor && plan.added != [] && !(plan.needsReq && SuccessFalse(seg[i]))
    ensures LineRight(seg, plan, i) <==> !Opens(seg[i])
  {
    hide SuccessFalse, Opens, More;
  }

  lemma AnchorMembers(seg: seq<string>, plan: Plan, i: nat)
    requires i < |seg| && plan.Rewrite? && PlainMembers(plan.added)
    requires i == plan.anchor && plan.added != [] && !(plan.needsReq && SuccessFalse(seg[i]))
    ensures var out, p, m := LinesOut(seg, plan, |seg|), Pos(seg, plan, i), |plan.added|;
            p + m < |out| && forall k :: p < k <= p + m ==> MemberLine(out[k], k < p + m || More(seg, i))
  {
    hide Pos, LinesOut, LineOut, More, SuccessFalse, WithComma, Indent, AddedLines, PlainMembers, MemberLine;
    var out, p := LinesOut(seg, plan, |seg|), Pos(seg, plan, i);
    var m, more := |plan.added|, More(seg, i);
    AnchorOut(seg, plan, i);
    OutLine(seg, plan, i, m);
    forall k | p < k <= p + m ensures MemberLine(out[k], k < p + m || more) {
      OutLine(seg, plan, i, k - p);
      AddedLine(Indent(seg[i]), plan.added, more, m, k - p - 1);
    }
  }

  lemma AnchorCommas(seg: seq<string>, plan: Plan, i: nat)
    requires i < |seg| && plan.Rewrite? && WrittenAnchor(seg, plan) && PlainMembers(plan.added)
    requires i == plan.anchor && plan.added != [] && !(plan.needsReq && SuccessFalse(seg[i]))
    requires CommaRight(seg, i)
    ensures var out := LinesOut(seg, plan, |seg|);
            RightBetween(out, Pos(seg, plan, i), Pos(seg, plan, i + 1)) <==> LineRight(seg, plan, i)
  {
    hide Pos, LinesOut, LineOut, Blank, Opens, EndsWith, More, MoreFrom, WrittenAnchor, SuccessFalse, WithComma, Indent,
         Closes, AddedLines, PlainMembers, RightBetween, MemberLine, Bare, CommaRight, LineRight, Touched;
    AnchorWritten(seg, plan);
    LineRightAtAnchor(seg, plan, i);
    BareOpens(seg, i);
    var out, p := LinesOut(seg, plan, |seg|), Pos(seg, plan, i);
    AnchorOut(seg, plan, i);
    CommaLine(seg[i]);
    HeadAt(seg, plan, i);
    AnchorMembers(seg, plan, i);
    MoreKept(seg, plan, i + 1);
    MoreIs(seg, i);
    MembersBehind(out, p, |plan.added|, More(seg, i));
  }

  ghost predicate LinesRight(seg: seq<string>, plan: Plan, n: nat)
    requires n <= |seg| && plan.Rewrite?
  {
    forall i :: 0 <= i < n ==> LineRight(seg, plan, i)
  }

  lemma LinesRightStep(seg: seq<string>, plan: Plan, n: nat)
    requires n < |seg| && plan.Rewrite?
    ensures LinesRight(seg, plan, n + 1) <==> LinesRight(seg, plan, n) && LineRight(seg, plan, n)
  {
    hide LineRight;
  }

  ghost predicate CommasAgree(seg: seq<string>, plan: Plan, n: nat)
    requires n <= |seg| && plan.Rewrite?
  {
    RightBetween(LinesOut(seg, plan, |seg|), 0, Pos(seg, plan, n)) <==> LinesRight(seg, plan, n)
  }

  lemma CommasAgreeStart(seg: seq<string>, plan: Plan)
    requires plan.Rewrite?
    ensures CommasAgree(seg, plan, 0)
  {
    hide CommaRight, LineOut;
  }

  lemma CommasAgreeStep(seg: seq<string>, plan: Plan, n: nat)
    requires n < |seg| && plan.Rewrite? && CommasAgree(seg, plan, n)
    requires RightBetween(LinesOut(seg, plan, |seg|), Pos(seg, plan, n), Pos(seg, plan, n + 1))
             <==> LineRight(seg, plan, n)
    ensures CommasAgree(seg, plan, n + 1)
  {
    hide RightBetween, LineRight, LinesRight, LinesOut, Pos;
    PosGrows(seg, plan, n);
    BetweenSplits(LinesOut(seg, plan, |seg|), Pos(seg, plan, n), Pos(seg, plan, n + 1));
    LinesRightStep(seg, plan, n);
  }

  lemma PosGrows(seg: seq<string>, plan: Plan, n: nat)
    requires n < |seg| && plan.Rewrite?
    ensures Pos(seg, plan, n) <= Pos(seg, plan, n + 1)
  {
    OutAt(seg, plan, n, n + 1);
  }

  lemma {:induction false} CommasUpTo(seg: seq<string>, plan: Plan, n: nat)
    requires n <= |seg| && plan.Rewrite? && WrittenAnchor(seg, plan) && PlainMembers(plan.added) && CommasRight(seg)
    ensures CommasAgree(seg, plan, n)
    decreases n
  {
    hide CommasAgree, RightBetween, LineRight, WrittenAnchor, PlainMembers, CommasRight, LinesOut, Pos;
    if n == 0 {
      CommasAgreeStart(seg, plan);
    } else {
      CommasUpTo(seg, plan, n - 1);
      LineCommas(seg, plan, n - 1);
      CommasAgreeStep(seg, plan, n - 1);
    }
  }

  lemma LineCommas(seg: seq<string>, plan: Plan, i: nat)
    requires i < |seg| && plan.Rewrite? && WrittenAnchor(seg, plan) && PlainMembers(plan.added) && CommasRight(seg)
    ensures var out := LinesOut(seg, plan, |seg|);
            RightBetween(out, Pos(seg, plan, i), Pos(seg, plan, i + 1)) <==> LineRight(seg, plan, i)
  {
    assert CommaRight(seg, i);
    hide Pos, LinesOut, LineOut, WrittenAnchor, PlainMembers, CommaRight, RightBetween, SuccessFalse, More;
    if plan.needsReq && SuccessFalse(seg[i]) {
      RequestCommas(seg, plan, i);
    } else if i == plan.anchor && plan.added != [] {
      AnchorCommas(seg, plan, i);
    } else {
      UntouchedCommas(seg, plan, i);
    }
  }

  lemma BetweenSplits(out: seq<string>, a: nat, b: nat)
    requires a <= b
    ensures RightBetween(out, 0, b) <==> RightBetween(out, 0, a) && RightBetween(out, a, b)
  {
  }

  lemma RewrittenCommas(seg: seq<string>, plan: Plan)
    requires plan.Rewrite? && WrittenAnchor(seg, plan) && PlainMembers(plan.added) && CommasRight(seg)
    ensures CommasRight(LinesOut(seg, plan, |seg|)) <==> LinesRight(seg, plan, |seg|)
  {
    hide LineOut, LinesOut, WrittenAnchor, PlainMembers, CommaRight, LineRight;
    CommasUpTo(seg, plan, |seg|);
    var out := LinesOut(seg, plan, |seg|);
    assert CommasRight(out) <==> RightBetween(out, 0, |out|);
  }

  /** The statuses a page states are numbers. */
  predicate Digits(s: string) {
    s != [] && forall k :: 0 <= k < |s| ==> '0' <= s[k] <= '9'
  }

  lemma PlanIsPlain(seg: seq<string>, status: Option<string>, rules: Rules)
    requires status.Some? ==> Digits(status.value)
    ensures var plan := PlanFor(seg, status, rules);
            plan.Rewrite? ==> PlainMembers(plan.added) && WrittenAnchor(seg, plan)
  {
    AnchorHolds(seg);
    hide HasKey, SuccessFalse, Join, Anchor, CountWritten, Blank;
    if status.Some? {
      var line := "\"statusCode\": " + status.value;
      assert line[|line| - 1] == status.value[|status.value| - 1];
    }
  }

  lemma AnchorHolds(seg: seq<string>)
    ensures Anchor(seg).Some? ==> Anchor(seg).value < |seg| && !Blank(seg[Anchor(seg).value])
  {
    if Anchor(seg).Some? {
      var l := seg[Anchor(seg).value];
      if HasKey(l, "code") { KeyWritten(l, "code"); } else { KeyWritten(l, "message"); }
    }
  }

  lemma KeyWritten(l: string, k: string)
    requires HasKey(l, k)
    ensures !Blank(l)
  {
    var p: nat :| p < |l| && KeyAt(l, k, p);
    assert l[p..p + |Quoted(k)|][0] == l[p] == '"';
  }

  /** A block whose commas are right keeps them right exactly when no line that gets a comma put behind it
      opens a bracket at its end, and something follows every `"success": false` that gets a request id. */
  lemma CommasStayRightExactly(seg: seq<string>, status: Option<string>, rules: Rules)
    requires CommasRight(seg) && (status.Some? ==> Digits(status.value))
    ensures var plan := PlanFor(seg, status, rules);
            CommasRight(FixBlock(seg, status, rules)) <==>
            plan.Rewrite? ==> forall i :: 0 <= i < |seg| && Touched(seg, plan, i) ==>
              !Opens(seg[i]) && (plan.needsReq && SuccessFalse(seg[i]) ==> More(seg, i))
  {
    var plan := PlanFor(seg, status, rules);
    PlanIsPlain(seg, status, rules);
    hide PlanFor, CommasRight, Opens, SuccessFalse, More, LinesOut, WrittenAnchor, PlainMembers;
    if plan.Rewrite? {
      RewrittenCommas(seg, plan);
      forall i | 0 <= i < |seg|
        ensures LineRight(seg, plan, i) <==>
                (Touched(seg, plan, i) ==>
                   !Opens(seg[i]) && (plan.needsReq && SuccessFalse(seg[i]) ==> More(seg, i)))
      {
      }
    }
  }
}
