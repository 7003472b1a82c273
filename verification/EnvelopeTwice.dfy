/** A second pass over a block: what the first one wrote, and what is left to write. */
module EnvelopeTwice {
  import opened Options
  import opened JsText
  import opened EnvelopeFix
  import opened EnvelopeKeys
  import EnvelopePlace

  // ---------- The key of an inserted line ----------

  predicate NoQuote(s: string) {
    forall i :: 0 <= i < |s| ==> s[i] != '"'
  }

  /** A number, or a text in quotes. */
  predicate PlainValue(v: string) {
    NoQuote(v) || (|v| >= 2 && v[0] == '"' && v[|v| - 1] == '"' && NoQuote(v[1..|v| - 1]))
  }

  function Member(name: string, value: string): string {
    Quoted(name) + ": " + value
  }

  ghost predicate Names(text: string, k: string) {
    exists value :: PlainValue(value) && text == Member(k, value)
  }

  lemma MemberKey(indent: string, name: string, value: string, end: string)
    ensures HasKey(indent + Member(name, value) + end, name)
  {
    var s, n := indent + Member(name, value) + end, |indent| + |Quoted(name)|;
    assert s[|indent|..n] == Quoted(name) && s[n] == ':';
    assert ColonAt(s, n, n);
    assert KeyAt(s, name, |indent|);
  }

  /** A word that runs up to a quote is one word. */
  lemma SameWord(t: string, a: string, b: string)
    requires Word(a) && Word(b) && a + "\"" <= t && b + "\"" <= t
    ensures a == b
  {
    assert t[|a|] == (a + "\"")[|a|] && t[|b|] == (b + "\"")[|b|];
    assert forall i :: 0 <= i < |a| ==> t[i] == (a + "\"")[i] == a[i];
    assert forall i :: 0 <= i < |b| ==> t[i] == (b + "\"")[i] == b[i];
  }

  /** The quotes of such a line allow one key, its own. */
  lemma OnlyKey(s: string, n: nat, name: string, value: string, k: string, p: nat)
    requires Word(name) && Word(k) && PlainValue(value)
    requires var z := n + |name| + 4 + |value|;
             && z <= |s| <= z + 1 && (forall i :: 0 <= i < n ==> IsSpace(s[i]))
             && s[n..z] == Member(name, value) && (|s| > z ==> s[z] == ',')
    requires KeyAt(s, k, p)
    ensures k == name
  {
    var key := s[p..p + |k| + 2];
    assert key == Quoted(k);
    assert s[p + 1..p + |k| + 2] == key[1..] == k + "\"";
    assert s[p] == key[0];
    KeyStart(s, n, name, value, k, p);
    var m := s[n..n + |name| + 4 + |value|];
    assert Member(name, value)[1..|name| + 2] == name + "\"";
    Within(s, n, n + |name| + 4 + |value|, |name| + 2);
    SameWord(s[n + 1..], name, k);
  }

  lemma Within(s: string, n: nat, z: nat, c: nat)
    requires n <= z <= |s| && 0 < c <= z - n
    ensures s[n..z][1..c] == s[n + 1..n + c] <= s[n + 1..]
  {
    var a, b := s[n..z][1..c], s[n + 1..n + c];
    forall i | 0 <= i < c - 1 ensures a[i] == b[i] {
      assert a[i] == s[n..z][1 + i] == s[n + (1 + i)];
      assert b[i] == s[(n + 1) + i];
    }
    assert a == b;
  }

  lemma KeyStart(s: string, n: nat, name: string, value: string, k: string, p: nat)
    requires Word(name) && Word(k) && PlainValue(value)
    requires var z := n + |name| + 4 + |value|;
             && z <= |s| <= z + 1 && (forall i :: 0 <= i < n ==> IsSpace(s[i]))
             && s[n..z] == Member(name, value) && (|s| > z ==> s[z] == ',')
    requires p + |k| + 2 <= |s| && s[p] == '"' && s[p + 1..p + |k| + 2] == k + "\"" && ColonFollows(s, p + |k| + 2)
    ensures p == n
  {
    var e, v, z := n + |name| + 1, n + |name| + 4, n + |name| + 4 + |value|;
    var m := s[n..z];
    assert s[e] == m[|name| + 1] && s[e + 1] == m[|name| + 2] && s[e + 2] == m[|name| + 3];
    assert forall i :: n < i < e ==> s[i] == m[i - n] == name[i - n - 1];
    assert forall i :: v <= i < z ==> s[i] == m[i - n] == value[i - v];
    assert s[p + 1] == (k + "\"")[0] == k[0];
    var q: nat :| q < |s| && ColonAt(s, p + |k| + 2, q);
    BeforeValue(s, v, z, value, k, p, q);
  }

  /** No key opens inside the value, or behind it. */
  lemma BeforeValue(s: string, v: nat, z: nat, value: string, k: string, p: nat, q: nat)
    requires Word(k) && PlainValue(value) && z == v + |value| && z <= |s| <= z + 1 && (|s| > z ==> s[z] == ',')
    requires forall i :: v <= i < z ==> s[i] == value[i - v]
    requires p + |k| + 2 <= q < |s| && s[q] == ':' && s[p] == '"' && s[p + 1..p + |k| + 2] == k + "\""
    ensures p < v
  {
    var t, inner := s[p + 1..p + |k| + 2], if |value| < 2 then value else value[1..|value| - 1];
    assert s[p + |k| + 1] == t[|k|] && s[p + 1] == t[0];
    assert forall i :: v < i < z - 1 ==> s[i] == value[i - v] == inner[i - v - 1];
  }

  lemma MemberKeys(indent: string, name: string, value: string, end: string, k: string)
    requires Blank(indent) && Word(name) && Word(k) && PlainValue(value) && (end == "" || end == ",")
    ensures HasKey(indent + Member(name, value) + end, k) <==> k == name
  {
    var s := indent + Member(name, value) + end;
    MemberKey(indent, name, value, end);
    if HasKey(s, k) {
      var p: nat :| p < |s| && KeyAt(s, k, p);
      var z := |indent| + |name| + 4 + |value|;
      assert |Member(name, value)| == |name| + 4 + |value|;
      assert s[|indent|..z] == Member(name, value);
      OnlyKey(s, |indent|, name, value, k, p);
    }
  }

  // ---------- What a rewrite adds ----------

  /** Every member added is a word with a plain value. */
  ghost predicate Members(added: seq<string>) {
    forall j :: 0 <= j < |added| ==> exists name :: Word(name) && Names(added[j], name)
  }

  ghost predicate AddsKey(added: seq<string>, k: string) {
    exists j :: 0 <= j < |added| && Names(added[j], k)
  }

  lemma OneMemberKey(indent: string, text: string, end: string, k: string)
    requires Blank(indent) && Word(k) && (end == "" || end == ",")
    requires exists name :: Word(name) && Names(text, name)
    ensures HasKey(indent + text + end, k) <==> Names(text, k)
  {
    var name :| Word(name) && Names(text, name);
    var value :| PlainValue(value) && text == Member(name, value);
    MemberKeys(indent, name, value, end, k);
    if Names(text, k) {
      var other :| PlainValue(other) && text == Member(k, other);
      MemberKey(indent, k, other, end);
    }
  }

  lemma {:induction false} AddedKeys(indent: string, added: seq<string>, more: bool, n: nat, k: string)
    requires n <= |added| && Blank(indent) && Word(k) && Members(added)
    ensures LineHas(AddedLines(indent, added, more, n), k) <==> AddsKey(added[..n], k)
  {
    hide HasKey, Names, Word;
    if n > 0 {
      AddedKeys(indent, added, more, n - 1, k);
      var end := if n < |added| || more then "," else "";
      var line := indent + added[n - 1] + end;
      OneMemberKey(indent, added[n - 1], end, k);
      LineHasConcat(AddedLines(indent, added, more, n - 1), [line], k);
      OneLine(line, k);
      AddsOneMore(added, n, k);
    }
  }

  lemma OneLine(l: string, k: string)
    ensures LineHas([l], k) <==> HasKey(l, k)
  {
    hide HasKey;
    if HasKey(l, k) { assert HasKey([l][0], k); }
  }

  lemma AddsOneMore(added: seq<string>, n: nat, k: string)
    requires 0 < n <= |added|
    ensures AddsKey(added[..n], k) <==> AddsKey(added[..n - 1], k) || Names(added[n - 1], k)
  {
    hide Names;
    var a, b := added[..n - 1], added[..n];
    forall j | 0 <= j < |a| && Names(a[j], k) ensures AddsKey(b, k) {
      assert Names(b[j], k);
    }
    forall j | 0 <= j < |b| && Names(b[j], k) ensures AddsKey(a, k) || Names(added[n - 1], k) {
      assert j < n - 1 ==> Names(a[j], k);
    }
    if Names(added[n - 1], k) { assert Names(b[n - 1], k); }
  }

  lemma RequestKeys(l: string, k: string)
    requires Word(k)
    ensures HasKey(RequestText(l), k) <==> k == "requestId"
  {
    RequestIsMember();
    hide HasKey;
    MemberKeys(Indent(l), "requestId", REQUEST_VALUE, ",", k);
    assert RequestText(l) == Indent(l) + Member("requestId", REQUEST_VALUE) + ",";
  }

  lemma RequestIsMember()
    ensures PlainValue(REQUEST_VALUE) && Word("requestId")
    ensures REQUEST_ID == Member("requestId", REQUEST_VALUE) + ","
  {
    NoQuoteInId();
    InQuotes(REQUEST_UUID);
    assert Quoted("requestId") + ": " == "\"requestId\": ";
  }

  lemma NoQuoteInId()
    ensures NoQuote(REQUEST_UUID)
  {
    assert NoQuote("3f8a1c74-9b2e-4d10-") && NoQuote("8c55-6a0f2b7e19dd");
  }

  lemma InQuotes(s: string)
    requires NoQuote(s)
    ensures PlainValue("\"" + s + "\"")
  {
    var v := "\"" + s + "\"";
    assert v[1..|v| - 1] == s;
  }

  /** What line `i` brings in besides its own keys. */
  ghost predicate Brings(seg: seq<string>, plan: Plan, i: nat, k: string)
    requires i < |seg| && plan.Rewrite?
  {
    if plan.needsReq && SuccessFalse(seg[i]) then k == "requestId"
    else i == plan.anchor && plan.added != [] && AddsKey(plan.added, k)
  }

  lemma LineOutKeys(seg: seq<string>, i: nat, plan: Plan, k: string)
    requires i < |seg| && plan.Rewrite? && Word(k) && Members(plan.added)
    ensures LineHas(LineOut(seg, i, plan), k) <==> HasKey(seg[i], k) || Brings(seg, plan, i, k)
  {
    hide HasKey, SuccessFalse, WithComma, RequestText, AddedLines, More, Members, AddsKey, Word;
    var l := seg[i];
    CommaKeepsKeys(l, k);
    OneLine(WithComma(l), k);
    OneLine(l, k);
    if plan.needsReq && SuccessFalse(l) {
      RequestKeys(l, k);
      OneLine(RequestText(l), k);
      RequestOut(seg, plan, i);
      assert [WithComma(l), RequestText(l)] == [WithComma(l)] + [RequestText(l)];
      LineHasConcat([WithComma(l)], [RequestText(l)], k);
    } else if i == plan.anchor && plan.added != [] {
      AnchorOut(seg, plan, i);
      var lines := AddedLines(Indent(l), plan.added, More(seg, i), |plan.added|);
      AddedKeys(Indent(l), plan.added, More(seg, i), |plan.added|, k);
      assert plan.added[..|plan.added|] == plan.added;
      LineHasConcat([WithComma(l)], lines, k);
    }
  }

  /** The keys of a rewritten block are its own and those it brought in. */
  lemma {:induction false} RewrittenKeys(seg: seq<string>, plan: Plan, n: nat, k: string)
    requires n <= |seg| && plan.Rewrite? && Word(k) && Members(plan.added)
    ensures LineHas(LinesOut(seg, plan, n), k) <==>
            exists i :: 0 <= i < n && (HasKey(seg[i], k) || Brings(seg, plan, i, k))
  {
    hide HasKey, Brings, LineOut, Members, Word;
    if n > 0 {
      RewrittenKeys(seg, plan, n - 1, k);
      LineOutKeys(seg, n - 1, plan, k);
      LineHasConcat(LinesOut(seg, plan, n - 1), LineOut(seg, n - 1, plan), k);
    } else {
      assert !LineHas([], k);
    }
  }

  // ---------- Line starts and `"success": false` after a rewrite ----------

  lemma MemberStarts(indent: string, text: string, end: string)
    requires Blank(indent) && exists name :: Word(name) && Names(text, name)
    ensures !LooseColon(indent + text + end)
  {
    var name :| Word(name) && Names(text, name);
    var value :| PlainValue(value) && text == Member(name, value);
    var s := indent + text + end;
    assert s[..|indent|] == indent && s[|indent|] == '"';
    IndentIs(s, |indent|);
  }

  lemma {:induction false} AddedStarts(indent: string, added: seq<string>, more: bool, n: nat)
    requires n <= |added| && Blank(indent) && Members(added)
    ensures NoLooseColon(AddedLines(indent, added, more, n))
  {
    hide Names, Word, LooseColon;
    if n > 0 {
      AddedStarts(indent, added, more, n - 1);
      MemberStarts(indent, added[n - 1], if n < |added| || more then "," else "");
    }
  }

  lemma RequestStarts(l: string)
    ensures !LooseColon(RequestText(l))
  {
    RequestIsMember();
    hide PlainValue;
    assert Names(Member("requestId", REQUEST_VALUE), "requestId");
    MemberStarts(Indent(l), Member("requestId", REQUEST_VALUE), ",");
    assert RequestText(l) == Indent(l) + Member("requestId", REQUEST_VALUE) + ",";
  }

  /** The anchor's line holds a key. */
  ghost predicate KeyedAnchor(seg: seq<string>, plan: Plan)
    requires plan.Rewrite?
  {
    plan.anchor < |seg| && exists k :: HasKey(seg[plan.anchor], k)
  }

  lemma LineOutStarts(seg: seq<string>, i: nat, plan: Plan)
    requires i < |seg| && plan.Rewrite? && Members(plan.added) && KeyedAnchor(seg, plan) && !LooseColon(seg[i])
    ensures NoLooseColon(LineOut(seg, i, plan))
  {
    hide HasKey, SuccessFalse, WithComma, RequestText, AddedLines, More, Members, LooseColon;
    var l := seg[i];
    if plan.needsReq && SuccessFalse(l) {
      RequestOut(seg, plan, i);
      SuccessIsKey(l);
      CommaKeepsStart(l, "success");
      RequestStarts(l);
    } else if i == plan.anchor && plan.added != [] {
      AnchorOut(seg, plan, i);
      var k :| HasKey(l, k);
      CommaKeepsStart(l, k);
      AddedStarts(Indent(l), plan.added, More(seg, i), |plan.added|);
    }
  }

  lemma StartsConcat(a: seq<string>, b: seq<string>)
    requires NoLooseColon(a) && NoLooseColon(b)
    ensures NoLooseColon(a + b)
  {
    hide LooseColon;
  }

  lemma {:induction false} RewrittenStarts(seg: seq<string>, plan: Plan, n: nat)
    requires n <= |seg| && plan.Rewrite? && Members(plan.added) && KeyedAnchor(seg, plan) && NoLooseColon(seg)
    ensures NoLooseColon(LinesOut(seg, plan, n))
  {
    hide LineOut, Members, KeyedAnchor, LooseColon;
    if n > 0 {
      RewrittenStarts(seg, plan, n - 1);
      LineOutStarts(seg, n - 1, plan);
      StartsConcat(LinesOut(seg, plan, n - 1), LineOut(seg, n - 1, plan));
    }
  }

  ghost predicate AnySuccess(lines: seq<string>) {
    exists i :: 0 <= i < |lines| && SuccessFalse(lines[i])
  }

  lemma SuccessConcat(a: seq<string>, b: seq<string>)
    ensures AnySuccess(a + b) <==> AnySuccess(a) || AnySuccess(b)
  {
    hide SuccessFalse;
    forall i | 0 <= i < |a| && SuccessFalse(a[i]) ensures AnySuccess(a + b) { assert SuccessFalse((a + b)[i]); }
    forall i | 0 <= i < |b| && SuccessFalse(b[i]) ensures AnySuccess(a + b) { assert SuccessFalse((a + b)[|a| + i]); }
    forall i | 0 <= i < |a + b| && SuccessFalse((a + b)[i]) ensures AnySuccess(a) || AnySuccess(b) {
      assert if i < |a| then SuccessFalse(a[i]) else SuccessFalse(b[i - |a|]);
    }
  }

  /** Lines without the key are no such line. */
  lemma NoKeyNoSuccess(lines: seq<string>)
    requires !LineHas(lines, "success")
    ensures !AnySuccess(lines)
  {
    hide SuccessFalse, HasKey;
    forall i | 0 <= i < |lines| && SuccessFalse(lines[i])
      ensures HasKey(lines[i], "success")
    {
      SuccessIsKey(lines[i]);
    }
  }

  lemma OneSuccess(l: string)
    ensures AnySuccess([l]) <==> SuccessFalse(l)
  {
    hide SuccessFalse;
    if SuccessFalse(l) { assert SuccessFalse([l][0]); }
  }

  lemma LineOutSuccess(seg: seq<string>, i: nat, plan: Plan)
    requires i < |seg| && plan.Rewrite? && Members(plan.added) && !AddsKey(plan.added, "success")
    ensures AnySuccess(LineOut(seg, i, plan)) <==> SuccessFalse(seg[i])
  {
    hide HasKey, SuccessFalse, WithComma, RequestText, AddedLines, More, Members, AddsKey, AnySuccess;
    var l := seg[i];
    CommaKeepsSuccess(l);
    OneSuccess(WithComma(l));
    OneSuccess(l);
    SuccessIsWord();
    if plan.needsReq && SuccessFalse(l) {
      RequestOut(seg, plan, i);
      assert [WithComma(l), RequestText(l)] == [WithComma(l)] + [RequestText(l)];
      RequestKeys(l, "success");
      OneLine(RequestText(l), "success");
      NoKeyNoSuccess([RequestText(l)]);
      SuccessConcat([WithComma(l)], [RequestText(l)]);
    } else if i == plan.anchor && plan.added != [] {
      AnchorOut(seg, plan, i);
      var lines := AddedLines(Indent(l), plan.added, More(seg, i), |plan.added|);
      AddedKeys(Indent(l), plan.added, More(seg, i), |plan.added|, "success");
      assert plan.added[..|plan.added|] == plan.added;
      NoKeyNoSuccess(lines);
      SuccessConcat([WithComma(l)], lines);
    }
  }

  lemma SuccessIsWord()
    ensures Word("success") && "success" != "requestId"
  {
    assert "success"[0] != "requestId"[0];
  }

  lemma {:induction false} RewrittenSuccess(seg: seq<string>, plan: Plan, n: nat)
    requires n <= |seg| && plan.Rewrite? && Members(plan.added) && !AddsKey(plan.added, "success")
    ensures AnySuccess(LinesOut(seg, plan, n)) <==> exists i :: 0 <= i < n && SuccessFalse(seg[i])
  {
    hide LineOut, Members, AddsKey, SuccessFalse;
    if n > 0 {
      RewrittenSuccess(seg, plan, n - 1);
      LineOutSuccess(seg, n - 1, plan);
      SuccessConcat(LinesOut(seg, plan, n - 1), LineOut(seg, n - 1, plan));
    } else {
      assert !AnySuccess([]);
    }
  }

  // ---------- The plan of the second pass ----------

  predicate CanPair(seg: seq<string>, status: Option<string>, rules: Rules) {
    var code := rules.codeOf(Join(seg));
    code.Some? && rules.known(code.value) && status.Some?
  }

  /** The members of the pair that the block lacks. */
  function PairFor(seg: seq<string>, status: Option<string>, rules: Rules): seq<string> {
    var body := Join(seg);
    if !CanPair(seg, status, rules) then []
    else
      (if HasKey(body, "statusCode") then [] else ["\"statusCode\": " + status.value])
      + (if HasKey(body, "category") then []
         else ["\"category\": \"" + rules.category(rules.codeOf(body).value, status.value) + "\""])
  }

  predicate Concerned(seg: seq<string>) {
    var body := Join(seg);
    HasKey(body, "error") && HasKey(body, "code") && (HasKey(body, "data") ==> SuccessFalse(body))
  }

  lemma PlanShape(seg: seq<string>, status: Option<string>, rules: Rules)
    ensures var plan, needsReq := PlanFor(seg, status, rules), !HasKey(Join(seg), "requestId");
            && (plan.Rewrite? <==>
                  Concerned(seg) && (needsReq || PairFor(seg, status, rules) != []) && Anchor(seg).Some?
                  && CountWritten(seg) != 1)
            && (plan.Rewrite? ==> plan == Rewrite(needsReq, Anchor(seg).value, PairFor(seg, status, rules)))
  {
    hide HasKey, SuccessFalse, Join, Anchor, CountWritten;
  }

  lemma {:induction false} AddedAre(indent: string, added: seq<string>, more: bool, n: nat, k: nat)
    requires k < n <= |added|
    ensures AddedLines(indent, added, more, n)[k] == indent + added[k] + if k + 1 < |added| || more then "," else ""
  {
    if k < n - 1 { AddedAre(indent, added, more, n - 1, k); }
  }

  /** The pair stands directly behind the anchor line, which gets a comma: its members in order, at the line's
      indent, commas between them, and behind the last one when something follows in the object. */
  lemma PairBehindAnchor(seg: seq<string>, status: Option<string>, rules: Rules, a: nat)
    returns (before: seq<string>, pair: seq<string>, after: seq<string>)
    requires Concerned(seg) && PairFor(seg, status, rules) != [] && IsAnchor(seg, a) && CountWritten(seg) != 1
    requires HasKey(Join(seg), "requestId") || !SuccessFalse(seg[a])
    ensures FixBlock(seg, status, rules) == before + [WithComma(seg[a])] + pair + after
    ensures PlanFor(seg, status, rules).Rewrite? && before == LinesOut(seg, PlanFor(seg, status, rules), a)
    ensures var members := PairFor(seg, status, rules);
            |pair| == |members| && forall k :: 0 <= k < |pair| ==>
              pair[k] == Indent(seg[a]) + members[k] + if k + 1 < |members| || More(seg, a) then "," else ""
  {
    hide HasKey, SuccessFalse, Join, Anchor, CountWritten, IsAnchor, LinesOut, LineOut, More, WithComma, Indent,
         AddedLines, PairFor, Concerned, PlanFor;
    AnchorExactly(seg);
    PlanShape(seg, status, rules);
    var plan, members := PlanFor(seg, status, rules), PairFor(seg, status, rules);
    after := EnvelopePlace.OutSplits(seg, plan, a, |seg|);
    AnchorOut(seg, plan, a);
    before, pair := LinesOut(seg, plan, a), AddedLines(Indent(seg[a]), members, More(seg, a), |members|);
    forall k | 0 <= k < |pair|
      ensures pair[k] == Indent(seg[a]) + members[k] + if k + 1 < |members| || More(seg, a) then "," else ""
    {
      AddedAre(Indent(seg[a]), members, More(seg, a), |members|, k);
    }
    assert before + ([WithComma(seg[a])] + pair) + after == before + [WithComma(seg[a])] + pair + after;
  }

  /** The pair is inserted nowhere: the line it belongs behind is one that gets a request id. */
  predicate SkipsPair(seg: seq<string>, plan: Plan) {
    plan.Rewrite? && plan.needsReq && plan.added != [] && plan.anchor < |seg| && SuccessFalse(seg[plan.anchor])
  }

  /** The categories are words without quotes. */
  ghost predicate PlainRules(rules: Rules) {
    forall code, status :: NoQuote(rules.category(code, status))
  }

  lemma NamesOne(name: string, value: string, k: string)
    requires Word(name) && Word(k) && PlainValue(value)
    ensures Names(Member(name, value), k) <==> k == name
  {
    var text := Member(name, value);
    assert Names(text, name);
    assert "" + text + "" == text;
    MemberKeys("", name, value, "", k);
    OneMemberKey("", text, "", k);
  }

  lemma PairTexts(status: string, category: string, k: string)
    requires Digits(status) && NoQuote(category) && Word(k)
    ensures Word("statusCode") && Word("category")
    ensures Names("\"statusCode\": " + status, "statusCode") && Names("\"category\": \"" + category + "\"", "category")
    ensures Names("\"statusCode\": " + status, k) <==> k == "statusCode"
    ensures Names("\"category\": \"" + category + "\"", k) <==> k == "category"
  {
    assert NoQuote(status);
    InQuotes(category);
    var value := "\"" + category + "\"";
    assert "\"statusCode\": " + status == Member("statusCode", status) by {
      assert Quoted("statusCode") + ": " == "\"statusCode\": ";
    }
    assert "\"category\": \"" + category + "\"" == Member("category", value) by {
      assert Quoted("category") + ": " == "\"category\": ";
      assert "\"category\": \"" + category + "\"" == "\"category\": " + value;
    }
    hide Names, Member;
    NamesOne("statusCode", status, k);
    NamesOne("category", value, k);
    NamesOne("statusCode", status, "statusCode");
    NamesOne("category", value, "category");
  }

  lemma PairKeys(seg: seq<string>, status: Option<string>, rules: Rules, k: string)
    requires PlainRules(rules) && (status.Some? ==> Digits(status.value)) && Word(k)
    ensures var pair, body := PairFor(seg, status, rules), Join(seg);
            && Members(pair)
            && (AddsKey(pair, k) <==>
                  CanPair(seg, status, rules) && !HasKey(body, k) && (k == "statusCode" || k == "category"))
  {
    hide HasKey, Join, Names, Word, Digits, NoQuote;
    var pair, body := PairFor(seg, status, rules), Join(seg);
    if CanPair(seg, status, rules) {
      var category := rules.category(rules.codeOf(body).value, status.value);
      PairTexts(status.value, category, k);
      if !HasKey(body, "statusCode") { assert pair[0] == "\"statusCode\": " + status.value; }
      if !HasKey(body, "category") { assert pair[|pair| - 1] == "\"category\": \"" + category + "\""; }
      assert Names("\"statusCode\": " + status.value, k) <==> k == "statusCode";
      if HasKey(body, "statusCode") && HasKey(body, "category") {
        assert pair == [];
      } else if |pair| == 1 {
        assert AddsKey(pair, k) <==> Names(pair[0], k);
      } else {
        assert AddsKey(pair, k) <==> Names(pair[0], k) || Names(pair[1], k);
      }
    }
  }

  // ---------- The block after the first pass ----------

  /** What is assumed of a block and of what is read off the page. */
  ghost predicate Ordinary(seg: seq<string>, status: Option<string>, rules: Rules) {
    NoLooseColon(seg) && PlainRules(rules) && (status.Some? ==> Digits(status.value))
  }

  ghost predicate Brought(seg: seq<string>, plan: Plan, k: string)
    requires plan.Rewrite?
  {
    exists i :: 0 <= i < |seg| && Brings(seg, plan, i, k)
  }

  lemma AnchorKeyed(seg: seq<string>)
    requires Anchor(seg).Some?
    ensures Anchor(seg).value < |seg| && exists k :: HasKey(seg[Anchor(seg).value], k)
  {
    assert HasKey(seg[Anchor(seg).value], "code") || HasKey(seg[Anchor(seg).value], "message");
  }

  lemma PlanMembers(seg: seq<string>, status: Option<string>, rules: Rules)
    requires Ordinary(seg, status, rules) && PlanFor(seg, status, rules).Rewrite?
    ensures var plan := PlanFor(seg, status, rules);
            Members(plan.added) && KeyedAnchor(seg, plan) && !AddsKey(plan.added, "success")
  {
    PlanShape(seg, status, rules);
    SuccessIsWord();
    PairKeys(seg, status, rules, "success");
    AnchorKeyed(seg);
    hide HasKey;
    assert "success"[0] == 's' && |"success"| != |"statusCode"| && |"success"| != |"category"|;
  }

  /** The keys of the finished block: its own and what was brought in. */
  lemma KeyAfter(seg: seq<string>, status: Option<string>, rules: Rules, k: string)
    requires Ordinary(seg, status, rules) && PlanFor(seg, status, rules).Rewrite? && Word(k)
    ensures var plan := PlanFor(seg, status, rules);
            HasKey(Join(LinesOut(seg, plan, |seg|)), k) <==> HasKey(Join(seg), k) || Brought(seg, plan, k)
  {
    PlanMembers(seg, status, rules);
    hide HasKey, Join, LinesOut, PlanFor, Members, KeyedAnchor, AddsKey, Brings, Word, NoLooseColon;
    var plan := PlanFor(seg, status, rules);
    KeysByLine(seg, k);
    RewrittenStarts(seg, plan, |seg|);
    KeysByLine(LinesOut(seg, plan, |seg|), k);
    RewrittenKeys(seg, plan, |seg|, k);
  }

  lemma BroughtExactly(seg: seq<string>, plan: Plan, k: string)
    requires plan.Rewrite? && plan.anchor < |seg|
    ensures Brought(seg, plan, k) <==>
            || (k == "requestId" && plan.needsReq && AnySuccess(seg))
            || (plan.added != [] && AddsKey(plan.added, k) && !SkipsPair(seg, plan))
  {
    hide SuccessFalse, AddsKey;
    if k == "requestId" && plan.needsReq && AnySuccess(seg) {
      var i :| 0 <= i < |seg| && SuccessFalse(seg[i]);
      assert Brings(seg, plan, i, k);
    }
    if plan.added != [] && AddsKey(plan.added, k) && !SkipsPair(seg, plan) {
      assert Brings(seg, plan, plan.anchor, k);
    }
  }

  lemma KeyWords()
    ensures Word("error") && Word("code") && Word("data") && Word("requestId") && Word("statusCode") && Word("category")
    ensures "error" != "requestId" && "code" != "requestId" && "data" != "requestId"
    ensures "error" != "statusCode" && "code" != "statusCode" && "data" != "statusCode" && "requestId" != "statusCode"
    ensures "error" != "category" && "code" != "category" && "data" != "category" && "requestId" != "category"
  {
    assert |"error"| == 5 && |"code"| == 4 && |"data"| == 4 && |"requestId"| == 9 && |"statusCode"| == 10
           && |"category"| == 8;
  }

  lemma KeyChanges(seg: seq<string>, status: Option<string>, rules: Rules, k: string)
    requires Ordinary(seg, status, rules) && PlanFor(seg, status, rules).Rewrite? && Word(k)
    ensures var plan := PlanFor(seg, status, rules);
            HasKey(Join(LinesOut(seg, plan, |seg|)), k) <==>
            || HasKey(Join(seg), k)
            || (k == "requestId" && plan.needsReq && AnySuccess(seg))
            || (CanPair(seg, status, rules) && (k == "statusCode" || k == "category") && !SkipsPair(seg, plan))
  {
    hide HasKey, Join, LinesOut, PlanFor, Word, Anchor, SuccessFalse, AnySuccess, CanPair, SkipsPair, PairFor,
         Concerned, Brought;
    var plan := PlanFor(seg, status, rules);
    PlanShape(seg, status, rules);
    AnchorKeyed(seg);
    KeyAfter(seg, status, rules, k);
    BroughtExactly(seg, plan, k);
    PairKeys(seg, status, rules, k);
  }

  /** The first pass changes nothing of what makes a block one of an error, and of the pair only what it adds. */
  lemma AfterOnce(seg: seq<string>, status: Option<string>, rules: Rules)
    requires Ordinary(seg, status, rules) && PlanFor(seg, status, rules).Rewrite?
    ensures var plan := PlanFor(seg, status, rules);
            var body, body' := Join(seg), Join(LinesOut(seg, plan, |seg|));
            var paired := CanPair(seg, status, rules) && !SkipsPair(seg, plan);
            && HasKey(body', "error") && HasKey(body', "code") && (HasKey(body', "data") <==> HasKey(body, "data"))
            && (HasKey(body', "requestId") <==> !plan.needsReq || AnySuccess(seg))
            && (HasKey(body', "statusCode") <==> HasKey(body, "statusCode") || paired)
            && (HasKey(body', "category") <==> HasKey(body, "category") || paired)
  {
    hide HasKey, Join, LinesOut, PlanFor, Word, Anchor, SuccessFalse, AnySuccess, CanPair, SkipsPair, PairFor, Ordinary;
    KeyWords();
    PlanShape(seg, status, rules);
    KeyChanges(seg, status, rules, "error");
    KeyChanges(seg, status, rules, "code");
    KeyChanges(seg, status, rules, "data");
    KeyChanges(seg, status, rules, "requestId");
    KeyChanges(seg, status, rules, "statusCode");
    KeyChanges(seg, status, rules, "category");
  }

  // ---------- What the second pass does ----------

  lemma {:induction false} UntouchedStays(seg: seq<string>, plan: Plan, n: nat)
    requires n <= |seg| && plan.Rewrite? && forall i :: 0 <= i < n ==> !Touched(seg, plan, i)
    ensures LinesOut(seg, plan, n) == seg[..n]
  {
    hide SuccessFalse;
    if n > 0 {
      UntouchedStays(seg, plan, n - 1);
      assert !Touched(seg, plan, n - 1);
      assert LineOut(seg, n - 1, plan) == [seg[n - 1]];
    }
  }

  lemma {:induction false} OutLength(seg: seq<string>, plan: Plan, n: nat)
    requires n <= |seg| && plan.Rewrite?
    ensures |LinesOut(seg, plan, n)| >= n
    ensures (exists i :: 0 <= i < n && |LineOut(seg, i, plan)| > 1) ==> |LinesOut(seg, plan, n)| > n
  {
    hide LineOut;
    if n > 0 { OutLength(seg, plan, n - 1); }
  }

  /** A second pass over a block whose pair was written, or lacked nothing, writes no line. */
  lemma SecondWritesNothing(seg: seq<string>, status: Option<string>, rules: Rules)
    requires Ordinary(seg, status, rules) && PlanFor(seg, status, rules).Rewrite?
    requires rules.codeOf(Join(FixBlock(seg, status, rules))) == rules.codeOf(Join(seg))
    requires !SkipsPair(seg, PlanFor(seg, status, rules))
    ensures FixBlock(FixBlock(seg, status, rules), status, rules) == FixBlock(seg, status, rules)
  {
    hide PlanFor, HasKey, Join, SuccessFalse, LinesOut, Members, AddsKey, Anchor, CountWritten, SkipsPair, Ordinary,
         Concerned, KeyedAnchor, PairFor, CanPair, AnySuccess;
    var plan := PlanFor(seg, status, rules);
    var out := LinesOut(seg, plan, |seg|);
    AfterOnce(seg, status, rules);
    SuccessAfter(seg, status, rules);
    PlanShape(seg, status, rules);
    PlanShape(out, status, rules);
    SamePairing(seg, out, status, rules);
    NothingLacks(out, status, rules);
    var again := PlanFor(out, status, rules);
    if again.Rewrite? {
      NoSuccessUntouched(out, again);
      UntouchedStays(out, again, |out|);
      assert out[..|out|] == out;
    }
  }

  lemma SuccessAfter(seg: seq<string>, status: Option<string>, rules: Rules)
    requires Ordinary(seg, status, rules) && PlanFor(seg, status, rules).Rewrite?
    ensures AnySuccess(LinesOut(seg, PlanFor(seg, status, rules), |seg|)) <==> AnySuccess(seg)
  {
    hide PlanFor, SuccessFalse, LinesOut, Members, AddsKey, Ordinary, KeyedAnchor;
    PlanMembers(seg, status, rules);
    RewrittenSuccess(seg, PlanFor(seg, status, rules), |seg|);
  }

  lemma SamePairing(seg: seq<string>, out: seq<string>, status: Option<string>, rules: Rules)
    requires rules.codeOf(Join(out)) == rules.codeOf(Join(seg))
    ensures CanPair(out, status, rules) == CanPair(seg, status, rules)
  {
    hide Join;
  }

  lemma NothingLacks(seg: seq<string>, status: Option<string>, rules: Rules)
    ensures CanPair(seg, status, rules) && HasKey(Join(seg), "statusCode") && HasKey(Join(seg), "category") ==>
              PairFor(seg, status, rules) == []
    ensures !CanPair(seg, status, rules) ==> PairFor(seg, status, rules) == []
  {
    hide HasKey, Join, CanPair;
  }

  lemma NoSuccessUntouched(seg: seq<string>, plan: Plan)
    requires plan.Rewrite? && plan.added == [] && (plan.needsReq ==> !AnySuccess(seg))
    ensures forall i :: 0 <= i < |seg| ==> !Touched(seg, plan, i)
  {
    hide SuccessFalse;
  }

  lemma CodeAnchors(lines: seq<string>)
    requires LineHas(lines, "code")
    ensures Anchor(lines).Some?
  {
    hide HasKey;
  }

  lemma {:induction false} CountTwo(lines: seq<string>, j: nat)
    requires j + 1 < |lines| && !Blank(lines[j]) && !Blank(lines[j + 1])
    ensures CountWritten(lines) >= 2
  {
    hide Blank;
    if j > 0 {
      CountTwo(lines[1..], j - 1);
    } else {
      assert lines[1..][0] == lines[1];
    }
  }

  /** A line that got a request id is two written lines. */
  lemma RequestTwoLines(seg: seq<string>, plan: Plan, i: nat)
    requires i < |seg| && plan.Rewrite? && plan.needsReq && SuccessFalse(seg[i])
    ensures CountWritten(LinesOut(seg, plan, |seg|)) >= 2
  {
    hide LinesOut, LineOut, SuccessFalse, WithComma, Blank, RequestText, MemberLine, Opens, EndsWith;
    var rest := EnvelopePlace.OutSplits(seg, plan, i, |seg|);
    var out, j := LinesOut(seg, plan, |seg|), |LinesOut(seg, plan, i)|;
    RequestOut(seg, plan, i);
    CommaLine(seg[i]);
    RequestLine(seg[i]);
    RequestWritten(seg[i]);
    assert out[j] == WithComma(seg[i]) && out[j + 1] == RequestText(seg[i]);
    CountTwo(out, j);
  }

  lemma RequestWritten(l: string)
    ensures !Blank(RequestText(l))
  {
    RequestLine(l);
  }

  /** A pair that the first pass skipped is written by the second. */
  lemma SecondWritesPair(seg: seq<string>, status: Option<string>, rules: Rules)
    requires Ordinary(seg, status, rules) && SkipsPair(seg, PlanFor(seg, status, rules))
    requires rules.codeOf(Join(FixBlock(seg, status, rules))) == rules.codeOf(Join(seg))
    ensures |FixBlock(FixBlock(seg, status, rules), status, rules)| > |FixBlock(seg, status, rules)|
  {
    hide PlanFor, HasKey, Join, SuccessFalse, LinesOut, LineOut, Anchor, CountWritten, Ordinary, PairFor, CanPair,
         AnySuccess;
    var plan := PlanFor(seg, status, rules);
    var out := LinesOut(seg, plan, |seg|);
    AfterOnce(seg, status, rules);
    SuccessAfter(seg, status, rules);
    PlanShape(seg, status, rules);
    PlanShape(out, status, rules);
    RequestTwoLines(seg, plan, plan.anchor);
    OutKeys(seg, status, rules);
    CodeAnchors(out);
    HasSuccess(seg, plan.anchor);
    SuccessOfText(out);
    SamePairing(seg, out, status, rules);
    SamePair(seg, out, status, rules);
    var again := PlanFor(out, status, rules);
    assert again.Rewrite? && !again.needsReq && again.added == plan.added;
    AnchorKeyed(out);
    AnchorOut(out, again, again.anchor);
    OutLength(out, again, |out|);
  }

  lemma HasSuccess(seg: seq<string>, i: nat)
    requires i < |seg| && SuccessFalse(seg[i])
    ensures AnySuccess(seg)
  {
    hide SuccessFalse;
  }

  lemma SuccessOfText(lines: seq<string>)
    requires AnySuccess(lines)
    ensures SuccessFalse(Join(lines))
  {
    hide SuccessFalse, Join;
    var j :| 0 <= j < |lines| && SuccessFalse(lines[j]);
    SuccessInText(lines, j);
  }

  lemma SamePair(seg: seq<string>, out: seq<string>, status: Option<string>, rules: Rules)
    requires rules.codeOf(Join(out)) == rules.codeOf(Join(seg))
    requires HasKey(Join(out), "statusCode") == HasKey(Join(seg), "statusCode")
    requires HasKey(Join(out), "category") == HasKey(Join(seg), "category")
    ensures PairFor(out, status, rules) == PairFor(seg, status, rules)
  {
    hide HasKey, Join;
  }

  lemma OutKeys(seg: seq<string>, status: Option<string>, rules: Rules)
    requires Ordinary(seg, status, rules) && PlanFor(seg, status, rules).Rewrite?
    ensures LineHas(LinesOut(seg, PlanFor(seg, status, rules), |seg|), "code")
  {
    AfterOnce(seg, status, rules);
    PlanMembers(seg, status, rules);
    hide PlanFor, HasKey, Join, LinesOut, Members, KeyedAnchor, AddsKey;
    var plan := PlanFor(seg, status, rules);
    RewrittenStarts(seg, plan, |seg|);
    KeyWords();
    KeysByLine(LinesOut(seg, plan, |seg|), "code");
  }

  /** A second pass over the same block, with the same status above it, changes nothing exactly when the first
      did not skip the pair: its anchor is a line that gets a request id. */
  lemma SecondPassExactly(seg: seq<string>, status: Option<string>, rules: Rules)
    requires Ordinary(seg, status, rules)
    requires rules.codeOf(Join(FixBlock(seg, status, rules))) == rules.codeOf(Join(seg))
    ensures FixBlock(FixBlock(seg, status, rules), status, rules) == FixBlock(seg, status, rules) <==>
            !SkipsPair(seg, PlanFor(seg, status, rules))
  {
    hide PlanFor, SuccessFalse, LinesOut, Ordinary;
    if PlanFor(seg, status, rules).Rewrite? {
      if SkipsPair(seg, PlanFor(seg, status, rules)) {
        SecondWritesPair(seg, status, rules);
      } else {
        SecondWritesNothing(seg, status, rules);
      }
    }
  }
}
