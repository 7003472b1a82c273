/** Blocks that a rewrite gets wrong, one for each way there is. */
module EnvelopeBreaks {
  import opened Options
  import opened JsText
  import opened EnvelopeFix
  import opened EnvelopeKeys
  import opened EnvelopePlace
  import opened EnvelopeTwice
  import ObjectFinder

  // ---------- Keys of short lines ----------

  lemma KeyIn(a: string, k: string, rest: string)
    ensures KeyAt(a + Quoted(k) + ":" + rest, k, |a|)
    ensures HasKey(a + Quoted(k) + ":" + rest, k)
  {
    var s, n := a + Quoted(k) + ":" + rest, |a| + |Quoted(k)|;
    assert s[|a|..n] == Quoted(k) && ColonAt(s, n, n);
  }

  /** No quote of the line is followed by the first letter of the key. */
  predicate Never(s: string, c: char) {
    forall i :: 0 < i < |s| && s[i] == c ==> s[i - 1] != '"'
  }

  lemma KeyQuotes(s: string, k: string, p: nat)
    requires k != [] && KeyAt(s, k, p)
    ensures p + 1 < |s| && s[p] == '"' && s[p + 1] == k[0]
  {
    var key := s[p..p + |Quoted(k)|];
    assert key[0] == s[p] && key[1] == s[p + 1];
  }

  lemma NeverKey(s: string, k: string)
    requires k != [] && Never(s, k[0])
    ensures !HasKey(s, k)
  {
    hide KeyAt;
    forall p: nat | p < |s| ensures !KeyAt(s, k, p) {
      if KeyAt(s, k, p) { KeyQuotes(s, k, p); }
    }
  }

  lemma NeverConcat(a: string, b: string, c: char)
    requires Never(a, c) && Never(b, c) && (a != [] && b != [] && b[0] == c ==> a[|a| - 1] != '"')
    ensures Never(a + b, c)
  {
    var s := a + b;
    forall i | 0 < i < |s| && s[i] == c ensures s[i - 1] != '"' {
      if i > |a| { assert s[i] == b[i - |a|] && s[i - 1] == b[i - 1 - |a|]; }
    }
  }

  lemma SuccessIn(a: string, rest: string)
    ensures SuccessFalse(a + "\"success\":false" + rest)
  {
    var s, p := a + "\"success\":false" + rest, |a|;
    var n := p + 9;
    assert "\"success\":false" == Quoted("success") + ":" + "false";
    assert s[p..n] == Quoted("success") && ColonAt(s, n, n);
    assert s[n + 1..n + 6] == "false";
    assert FalseAt(s, n + 1, n + 1);
    assert SuccessFalseAt(s, p, n);
  }

  lemma StartsPlainly(l: string)
    requires l != [] && !IsSpace(l[0]) && l[0] != ':'
    ensures !LooseColon(l) && !Blank(l)
  {
  }

  const SUCCESS: string := "\"success\":false"
  const ERROR_OPENS: string := ",\"error\":{"

  lemma SuccessNever(c: char)
    requires c == 'c' || c == 'd' || c == 'm' || c == 'r'
    ensures Never(SUCCESS, c)
  {
  }

  // ---------- A comma behind an opening bracket ----------

  const OPENING: string := "{" + SUCCESS + ERROR_OPENS

  function OpeningBlock(): seq<string> {
    [OPENING, CODE_LINE, "}}"]
  }

  lemma OpeningKeys()
    ensures SuccessFalse(OPENING) && HasKey(OPENING, "error")
  {
    SuccessIn("{", ERROR_OPENS);
    hide SuccessFalse, HasKey;
    KeyIn("{" + SUCCESS + ",", "error", "{");
    ErrorOpens();
    Regrouped("{" + SUCCESS, ",", Quoted("error"), ":", "{");
  }

  lemma ErrorOpens()
    ensures ERROR_OPENS == "," + (Quoted("error") + ":" + "{")
  {
  }

  lemma Regrouped(a: string, b: string, c: string, d: string, e: string)
    ensures a + (b + (c + d + e)) == (a + b) + c + d + e
  {
  }

  lemma OpeningNever()
    ensures Never(OPENING, 'r')
  {
    SuccessNever('r');
    NeverConcat("{", SUCCESS, 'r');
    NeverConcat("{" + SUCCESS, ERROR_OPENS, 'r');
  }

  lemma OpeningShape()
    ensures Opens(OPENING) && !LooseColon(OPENING) && !Blank(OPENING)
  {
    assert OPENING[0] == '{' && OPENING[|OPENING| - 1] == ERROR_OPENS[9] == '{';
    hide SUCCESS, ERROR_OPENS;
    StartsPlainly(OPENING);
    EndsPlainly(OPENING);
  }

  const CODE_LINE: string := "\"code\":" + "\"X\""

  lemma CodeLine()
    ensures HasKey(CODE_LINE, "code") && Never(CODE_LINE, 'r') && !LooseColon(CODE_LINE) && !Blank(CODE_LINE)
    ensures !Opens(Bare(CODE_LINE)) && !EndsWith(CODE_LINE, ',') && !Opens(CODE_LINE) && !Closes(CODE_LINE)
  {
    KeyIn("", "code", "\"X\"");
    assert CODE_LINE == "" + Quoted("code") + ":" + "\"X\"";
    assert CODE_LINE[0] == '"' && CODE_LINE[|CODE_LINE| - 1] == '"';
    PlainLine(CODE_LINE);
  }

  /** A line that neither ends in a comma or a bracket nor starts with one. */
  lemma PlainLine(l: string)
    requires l != [] && l[0] == '"' && l[|l| - 1] == '"'
    ensures !LooseColon(l) && !Blank(l) && !Opens(Bare(l)) && !EndsWith(l, ',') && !Opens(l) && !Closes(l)
            && Bare(l) == l
  {
    StartsPlainly(l);
    EndsPlainly(l);
    assert TrimEnd(l) == l;
    assert l[..0] == [];
    FirstCharAt(l, 0);
  }

  lemma Closing()
    ensures Closes("}}") && !LooseColon("}}") && !Blank("}}") && !Opens("}}") && !EndsWith("}}", ',')
            && Bare("}}") == "}}"
    ensures Never("}}", 'r')
  {
    StartsPlainly("}}");
    EndsPlainly("}}");
    assert TrimEnd("}}") == "}}";
    assert "}}"[..0] == [];
    FirstCharAt("}}", 0);
  }

  lemma OpeningMore(seg: seq<string>)
    requires |seg| == 3 && !Blank(seg[1]) && !Blank(seg[2]) && Closes(seg[2])
    ensures !More(seg, 1) && !More(seg, 2)
  {
    hide Blank, Closes;
    assert NextWritten(seg, 2) == Some(2);
    assert NextWritten(seg, 3) == None;
  }

  lemma OpeningRight()
    ensures CommasRight(OpeningBlock())
  {
    var seg := OpeningBlock();
    OpeningShape();
    CodeLine();
    Closing();
    hide OPENING, CODE_LINE, Blank, Closes, Opens, EndsWith, Bare, More;
    assert seg == [OPENING, CODE_LINE, "}}"];
    OpeningMore(seg);
    assert CommaRight(seg, 0) && CommaRight(seg, 1) && CommaRight(seg, 2);
  }

  lemma OpeningPlan(rules: Rules)
    ensures var plan := PlanFor(OpeningBlock(), None, rules);
            plan.Rewrite? && plan.needsReq && Touched(OpeningBlock(), plan, 0)
  {
    var seg := OpeningBlock();
    OpeningKeys();
    OpeningNever();
    OpeningShape();
    CodeLine();
    Closing();
    hide OPENING, CODE_LINE, HasKey, SuccessFalse, Join, LooseColon, Blank, Never, PlanFor;
    KeyWords();
    ThreeLines(seg, "error");
    ThreeLines(seg, "code");
    ThreeLines(seg, "requestId");
    KeysByLine(seg, "error");
    KeysByLine(seg, "code");
    KeysByLine(seg, "requestId");
    RequestNever(OPENING);
    RequestNever(CODE_LINE);
    RequestNever("}}");
    SuccessInText(seg, 0);
    CodeAnchors(seg);
    CountTwo(seg, 0);
    PlanShape(seg, None, rules);
  }

  lemma RequestNever(l: string)
    requires Never(l, 'r')
    ensures !HasKey(l, "requestId")
  {
    NeverKey(l, "requestId");
  }

  lemma ThreeLines(seg: seq<string>, k: string)
    requires |seg| == 3
    ensures LineHas(seg, k) <==> HasKey(seg[0], k) || HasKey(seg[1], k) || HasKey(seg[2], k)
  {
    hide HasKey;
    if HasKey(seg[0], k) || HasKey(seg[1], k) || HasKey(seg[2], k) { assert LineHas(seg, k); }
  }

  /** A block in order comes out with a comma behind the bracket its first line opens, whatever the registry says. */
  lemma OpeningBracketBreaks(rules: Rules)
    ensures CommasRight(OpeningBlock()) && !CommasRight(FixBlock(OpeningBlock(), None, rules))
  {
    OpeningRight();
    OpeningShape();
    OpeningPlan(rules);
    hide OPENING, Opens, PlanFor, CommasRight, Touched, FixBlock;
    CommasStayRightExactly(OpeningBlock(), None, rules);
    assert OpeningBlock()[0] == OPENING;
  }

  // ---------- A pair behind the object it belongs in ----------

  const ERROR_KEY: string := "\"error\":{"
  const ERROR_REST: string := "code\":\"X\"," + "\"message\":\"m\""
  const ERROR_LINE: string := ERROR_KEY + "\"" + ERROR_REST + "}"
  const SUCCESS_LINE: string := SUCCESS + ","
  const REQUEST_LINE: string := "\"requestId\":" + "\"r\","

  function ClosedBlock(): seq<string> {
    ["{", SUCCESS_LINE, REQUEST_LINE, ERROR_LINE, "}"]
  }

  lemma ErrorLineKeys()
    ensures KeyAt(ERROR_LINE, "code", |ERROR_KEY|) && HasKey(ERROR_LINE, "code") && HasKey(ERROR_LINE, "error")
  {
    var rest := "\"X\"," + "\"message\":\"m\"" + "}";
    hide HasKey, KeyAt;
    KeyIn(ERROR_KEY, "code", rest);
    assert ERROR_LINE == ERROR_KEY + Quoted("code") + ":" + rest by { ErrorText(rest); }
    var tail := "{" + "\"" + ERROR_REST + "}";
    KeyIn("", "error", tail);
    assert ERROR_LINE == "" + Quoted("error") + ":" + tail by { ErrorHead(tail); }
  }

  lemma ErrorText(rest: string)
    requires rest == "\"X\"," + "\"message\":\"m\"" + "}"
    ensures ERROR_LINE == ERROR_KEY + Quoted("code") + ":" + rest
  {
    assert "\"" + ("code\":\"X\"," + "\"message\":\"m\"") + "}" == Quoted("code") + ":" + rest;
  }

  lemma ErrorHead(tail: string)
    requires tail == "{" + "\"" + ERROR_REST + "}"
    ensures ERROR_LINE == "" + Quoted("error") + ":" + tail
  {
    assert ERROR_KEY == Quoted("error") + ":" + "{";
  }

  /** A quote in front of an `s` opens `success` and nothing else. */
  predicate OnlySuccess(s: string) {
    forall i :: 0 < i < |s| && s[i] == 's' && s[i - 1] == '"' ==> i + 1 < |s| && s[i + 1] == 'u'
  }

  lemma NoStatusKey(s: string)
    requires OnlySuccess(s)
    ensures !HasKey(s, "statusCode")
  {
    hide KeyAt;
    forall p: nat | p < |s| ensures !KeyAt(s, "statusCode", p) {
      if KeyAt(s, "statusCode", p) { StatusQuotes(s, p); }
    }
  }

  lemma StatusQuotes(s: string, p: nat)
    requires KeyAt(s, "statusCode", p)
    ensures p + 2 < |s| && s[p] == '"' && s[p + 1] == 's' && s[p + 2] == 't'
  {
    var key := s[p..p + |Quoted("statusCode")|];
    assert key[0] == s[p] && key[1] == s[p + 1] && key[2] == s[p + 2];
  }

  lemma SuccessLineFalse()
    ensures SuccessFalse(SUCCESS_LINE)
  {
    SuccessIn("", ",");
    hide SuccessFalse;
    assert SUCCESS_LINE == "" + "\"success\":false" + ",";
  }

  lemma SuccessLineShape()
    ensures Never(SUCCESS_LINE, 'c') && !LooseColon(SUCCESS_LINE) && !Blank(SUCCESS_LINE)
  {
    assert SUCCESS_LINE[0] == '"';
    SuccessNever('c');
    hide SUCCESS;
    NeverConcat(SUCCESS, ",", 'c');
    StartsPlainly(SUCCESS_LINE);
  }

  lemma SuccessLineStatus()
    ensures OnlySuccess(SUCCESS_LINE)
  {
  }

  lemma RequestLineKey()
    ensures HasKey(REQUEST_LINE, "requestId")
  {
    KeyIn("", "requestId", "\"r\",");
    hide HasKey, KeyAt;
    assert REQUEST_LINE == "" + Quoted("requestId") + ":" + "\"r\",";
  }

  lemma RequestLineShape()
    ensures Never(REQUEST_LINE, 'c') && !LooseColon(REQUEST_LINE)
  {
    assert REQUEST_LINE[0] == '"';
    hide Blank;
    StartsPlainly(REQUEST_LINE);
  }

  lemma RequestLineStatus()
    ensures OnlySuccess(REQUEST_LINE)
  {
  }

  lemma ErrorLineShape()
    ensures !LooseColon(ERROR_LINE) && Bare(ERROR_LINE) == ERROR_LINE
  {
    var l := ERROR_LINE;
    assert l[0] == '"' && l[|l| - 1] == '}';
    hide ERROR_LINE;
    StartsPlainly(l);
    EndsPlainly(l);
    assert TrimEnd(l) == l;
  }

  lemma ErrorLineStatus()
    ensures OnlySuccess(ERROR_LINE)
  {
    assert Never(ERROR_KEY + "\"", 's');
    assert Never(ERROR_REST, 's');
    hide ERROR_KEY, ERROR_REST;
    NeverConcat(ERROR_KEY + "\"", ERROR_REST, 's');
    NeverConcat(ERROR_KEY + "\"" + ERROR_REST, "}", 's');
  }

  lemma BracketLine(l: string)
    requires l == "{" || l == "}"
    ensures Never(l, 'c') && Never(l, 'm') && OnlySuccess(l) && !LooseColon(l) && !Blank(l)
  {
    StartsPlainly(l);
  }

  lemma ClosedLines()
    ensures var seg := ClosedBlock();
            |seg| == 5 && seg[0] == "{" && seg[1] == SUCCESS_LINE && seg[2] == REQUEST_LINE && seg[3] == ERROR_LINE
            && seg[4] == "}"
  {
  }

  lemma ClosedNoLooseColon()
    ensures NoLooseColon(ClosedBlock())
  {
    BracketLine("{");
    SuccessLineShape();
    RequestLineShape();
    ErrorLineShape();
    BracketLine("}");
    hide SUCCESS_LINE, REQUEST_LINE, ERROR_LINE, LooseColon;
    ClosedLines();
  }

  lemma ClosedNoStatus()
    ensures !LineHas(ClosedBlock(), "statusCode")
  {
    BracketLine("{");
    SuccessLineStatus();
    RequestLineStatus();
    ErrorLineStatus();
    BracketLine("}");
    hide SUCCESS_LINE, REQUEST_LINE, ERROR_LINE, HasKey, OnlySuccess;
    ClosedLines();
    NoStatusKey("{");
    NoStatusKey(SUCCESS_LINE);
    NoStatusKey(REQUEST_LINE);
    NoStatusKey(ERROR_LINE);
    NoStatusKey("}");
  }

  lemma NeverCode(l: string)
    requires Never(l, 'c')
    ensures !HasKey(l, "code")
  {
    NeverKey(l, "code");
  }

  /** The only line with a code is the anchor: no message is looked for on it. */
  lemma ClosedAnchor()
    ensures Anchor(ClosedBlock()) == Some(3)
  {
    var seg := ClosedBlock();
    BracketLine("{");
    SuccessLineShape();
    RequestLineShape();
    ErrorLineKeys();
    BracketLine("}");
    hide SUCCESS_LINE, REQUEST_LINE, ERROR_LINE, HasKey, Never, KeyAt;
    ClosedLines();
    NeverCode("{");
    NeverCode(SUCCESS_LINE);
    NeverCode(REQUEST_LINE);
    NeverKey("}", "message");
    AnchorOfFive(seg);
  }

  lemma AnchorOfFive(seg: seq<string>)
    requires |seg| == 5 && HasKey(seg[3], "code") && !HasKey(seg[4], "message")
    requires !HasKey(seg[0], "code") && !HasKey(seg[1], "code") && !HasKey(seg[2], "code")
    ensures Anchor(seg) == Some(3)
  {
    hide HasKey;
  }

  lemma ClosedKeys()
    ensures LineHas(ClosedBlock(), "error") && LineHas(ClosedBlock(), "code") && LineHas(ClosedBlock(), "requestId")
  {
    ErrorLineKeys();
    RequestLineKey();
    hide SUCCESS_LINE, REQUEST_LINE, ERROR_LINE, HasKey;
    ClosedLines();
    var seg := ClosedBlock();
    assert HasKey(seg[3], "error") && HasKey(seg[3], "code") && HasKey(seg[2], "requestId");
  }

  lemma ClosedWritten()
    ensures CountWritten(ClosedBlock()) >= 2 && SuccessFalse(Join(ClosedBlock()))
  {
    BracketLine("{");
    SuccessLineShape();
    SuccessLineFalse();
    hide SUCCESS_LINE, REQUEST_LINE, ERROR_LINE, Blank, SuccessFalse, Join, CountWritten;
    ClosedLines();
    CountTwo(ClosedBlock(), 0);
    SuccessInText(ClosedBlock(), 1);
  }

  /** A registry that knows the block's code. */
  ghost predicate KnowsClosed(rules: Rules) {
    rules.codeOf(Join(ClosedBlock())) == Some("X") && rules.known("X")
  }

  lemma ClosedPlan(rules: Rules)
    requires KnowsClosed(rules)
    ensures var plan := PlanFor(ClosedBlock(), Some("404"), rules);
            plan.Rewrite? && !plan.needsReq && plan.anchor == 3
            && plan.added != [] && plan.added[0] == "\"statusCode\": " + "404"
  {
    var seg := ClosedBlock();
    hide ClosedBlock, HasKey, LineHas, SuccessFalse, Join, Anchor, CountWritten;
    ClosedNoLooseColon();
    ClosedNoStatus();
    ClosedKeys();
    ClosedAnchor();
    ClosedWritten();
    KeyWords();
    KeysByLine(seg, "error");
    KeysByLine(seg, "code");
    KeysByLine(seg, "requestId");
    KeysByLine(seg, "statusCode");
  }

  /** Right behind a brace, it is the last one open. */
  lemma JustOpened(text: string, i: nat)
    requires 0 < i < |text| && text[i - 1] == '{' && text[i] == '"'
    ensures ObjectFinder.LastOpen(text, i, i - 1)
  {
    assert ObjectFinder.Depth(text, i) == ObjectFinder.Depth(text, i - 1) + 1;
    assert ObjectFinder.Depth(text, i + 1) == ObjectFinder.Depth(text, i);
  }

  lemma ErrorRestClosed()
    ensures !Level(ERROR_REST + "}")
  {
    assert forall i :: 0 <= i < |ERROR_REST| ==> ERROR_REST[i] != '{' && ERROR_REST[i] != '}';
    hide ERROR_REST, Level;
    ClosedOnTheLine(ERROR_REST);
  }

  lemma ErrorBare()
    ensures |ERROR_KEY| < |Bare(ERROR_LINE)| && |ERROR_KEY| > 0
    ensures Bare(ERROR_LINE)[..|ERROR_KEY| + 1] == ERROR_KEY + "\"" && ERROR_KEY[|ERROR_KEY| - 1] == '{'
    ensures Bare(ERROR_LINE)[|ERROR_KEY| + 1..] == ERROR_REST + "}"
  {
    assert ERROR_KEY[|ERROR_KEY| - 1] == '{';
    ErrorLineShape();
    hide Bare, ERROR_KEY, ERROR_REST;
    var a := ERROR_KEY + "\"";
    assert ERROR_LINE == a + (ERROR_REST + "}");
  }

  lemma ErrorIndent()
    ensures Indent(ERROR_LINE) == ""
  {
    assert ERROR_LINE[0] == '"';
  }

  lemma ErrorGap()
    ensures |ERROR_KEY| < |Bare(ERROR_LINE)|
    ensures ERROR_KEY + "\"" + Gap(ERROR_LINE, |ERROR_KEY|) == ERROR_LINE + ",\n"
  {
    ErrorBare();
    ErrorIndent();
    hide Bare, Indent, ERROR_KEY, ERROR_REST;
    assert ERROR_LINE == (ERROR_KEY + "\"") + (ERROR_REST + "}");
  }

  /** Where an error object is closed on its message's own line, the pair lands behind it: the last brace open at
      the object's first key is no longer the last one open at the added status. */
  lemma ClosedObjectMissesPair(rules: Rules) returns (head: string, after: string)
    requires KnowsClosed(rules)
    ensures "\"statusCode\": " + "404" <= after
    ensures Join(FixBlock(ClosedBlock(), Some("404"), rules)) == head + ERROR_LINE + ",\n" + after
    ensures var text, open := head + ERROR_LINE + ",\n" + after, |head| + |ERROR_KEY| - 1;
            && ObjectFinder.LastOpen(text, open + 1, open)
            && !ObjectFinder.LastOpen(text, |head + ERROR_LINE| + 1, open)
  {
    hide PlanFor, KeyAt, Join, FixBlock, Bare, Gap, ERROR_KEY, ERROR_LINE, ERROR_REST, SUCCESS_LINE, REQUEST_LINE;
    hide ObjectFinder.LastOpen, KnowsClosed, Level, LinesOut, Text;
    ClosedLines();
    ClosedPlan(rules);
    ErrorLineKeys();
    ErrorBare();
    ErrorRestClosed();
    var plan := PlanFor(ClosedBlock(), Some("404"), rules);
    head := Text(LinesOut(ClosedBlock(), plan, 3));
    var open, gap := |head| + |ERROR_KEY| - 1, Gap(ERROR_LINE, |ERROR_KEY|);
    var before: string;
    before, after := PairLandsInsideExactly(ClosedBlock(), Some("404"), rules, "code", |ERROR_KEY|, open);
    assert before == head + (ERROR_KEY + "\"");
    ErrorGap();
    SameText(head, ERROR_KEY + "\"", gap, after, ERROR_LINE + ",\n");
    TextRegrouped(head, after);
    var text := before + gap + after;
    assert text[open] == '{' && text[open + 1] == '"';
    JustOpened(text, open + 1);
  }

  lemma SameText(head: string, a: string, gap: string, after: string, line: string)
    requires a + gap == line
    ensures head + a + gap + after == head + line + after
    ensures |head + a| + |gap| == |head| + |line|
  {
    assert head + a + gap == head + (a + gap);
  }

  lemma TextRegrouped(head: string, after: string)
    ensures head + (ERROR_LINE + ",\n") + after == head + ERROR_LINE + ",\n" + after
  {
    hide ERROR_LINE;
  }

  // ---------- A pair that the first pass skips ----------

  const ONE_LINE: string := SUCCESS + ERROR_OPENS + CODE_LINE + "}"

  function OneLineBlock(): seq<string> {
    ["{", ONE_LINE, "}"]
  }

  lemma OneLineFalse()
    ensures SuccessFalse(ONE_LINE)
  {
    SuccessIn("", ERROR_OPENS + CODE_LINE + "}");
    hide SuccessFalse, ERROR_OPENS, CODE_LINE;
    assert SUCCESS == "" + "\"success\":false";
    assert ONE_LINE == "" + "\"success\":false" + (ERROR_OPENS + CODE_LINE + "}");
  }

  lemma OneLineError()
    ensures HasKey(ONE_LINE, "error")
  {
    KeyIn(SUCCESS + ",", "error", "{" + CODE_LINE + "}");
    ErrorOpens();
    hide HasKey, KeyAt, SUCCESS, CODE_LINE, ERROR_OPENS;
    var e := Quoted("error") + ":";
    assert ONE_LINE == SUCCESS + "," + Quoted("error") + ":" + ("{" + CODE_LINE + "}") by {
      assert ERROR_OPENS == "," + (e + "{");
      Regrouped(SUCCESS, ",", Quoted("error"), ":", "{" + CODE_LINE + "}");
      assert SUCCESS + ("," + (e + "{")) + CODE_LINE + "}" == SUCCESS + ("," + (e + ("{" + CODE_LINE + "}")));
    }
  }

  lemma CodeText()
    ensures CODE_LINE == Quoted("code") + ":" + "\"X\""
  {
  }

  lemma OneLineCode()
    ensures HasKey(ONE_LINE, "code")
  {
    var head := SUCCESS + ERROR_OPENS;
    KeyIn(head, "code", "\"X\"" + "}");
    CodeText();
    hide HasKey, KeyAt, SUCCESS, CODE_LINE, ERROR_OPENS;
    assert head + (Quoted("code") + ":" + "\"X\"") + "}" == head + Quoted("code") + ":" + ("\"X\"" + "}");
  }

  lemma OneLineRequest()
    ensures !HasKey(ONE_LINE, "requestId")
  {
    SuccessNever('r');
    assert Never(ERROR_OPENS, 'r') && Never(CODE_LINE, 'r');
    assert ERROR_OPENS[0] == ',' && CODE_LINE[0] == '"';
    hide SUCCESS, CODE_LINE, ERROR_OPENS, HasKey;
    NeverConcat(SUCCESS, ERROR_OPENS, 'r');
    NeverConcat(SUCCESS + ERROR_OPENS, CODE_LINE, 'r');
    NeverConcat(SUCCESS + ERROR_OPENS + CODE_LINE, "}", 'r');
    RequestNever(ONE_LINE);
  }

  lemma OnlyConcat(a: string, b: string)
    requires OnlySuccess(a) && Never(b, 's') && (b != [] ==> b[0] != 's')
    requires a != [] && a[|a| - 1] != 's'
    ensures OnlySuccess(a + b)
  {
    var s := a + b;
    forall i | |a| <= i < |s| && s[i] == 's' ensures s[i - 1] != '"' {
      assert s[i] == b[i - |a|];
      if i > |a| { assert s[i - 1] == b[i - 1 - |a|]; }
    }
    forall i | 0 < i < |s| && s[i] == 's' && s[i - 1] == '"' ensures i + 1 < |s| && s[i + 1] == 'u' {
      assert a[i] == s[i] && a[i - 1] == s[i - 1];
      assert a[i + 1] == s[i + 1];
    }
  }

  lemma OneLineStatus()
    ensures !HasKey(ONE_LINE, "statusCode")
  {
    assert OnlySuccess(SUCCESS) && SUCCESS[|SUCCESS| - 1] == 'e';
    assert Never(ERROR_OPENS, 's') && Never(CODE_LINE, 's');
    assert ERROR_OPENS[|ERROR_OPENS| - 1] == '{' && ERROR_OPENS[0] == ',' && CODE_LINE[0] == '"';
    hide SUCCESS, CODE_LINE, ERROR_OPENS, HasKey;
    NeverConcat(ERROR_OPENS, CODE_LINE, 's');
    NeverConcat(ERROR_OPENS + CODE_LINE, "}", 's');
    OnlyConcat(SUCCESS, ERROR_OPENS + CODE_LINE + "}");
    assert ONE_LINE == SUCCESS + (ERROR_OPENS + CODE_LINE + "}");
    NoStatusKey(ONE_LINE);
  }

  lemma OneLineShape()
    ensures !LooseColon(ONE_LINE) && !Blank(ONE_LINE)
  {
    assert ONE_LINE[0] == SUCCESS[0] == '"';
    StartsPlainly(ONE_LINE);
  }

  lemma AnchorOfThree(seg: seq<string>)
    requires |seg| == 3 && !HasKey(seg[0], "code") && HasKey(seg[1], "code") && !HasKey(seg[2], "message")
    ensures Anchor(seg) == Some(1)
  {
    hide HasKey;
  }

  lemma OneLineKeys()
    ensures var seg := OneLineBlock();
            && NoLooseColon(seg) && LineHas(seg, "error") && LineHas(seg, "code")
            && !LineHas(seg, "requestId") && !LineHas(seg, "statusCode") && Anchor(seg) == Some(1)
  {
    var seg := OneLineBlock();
    BracketLine("{");
    BracketLine("}");
    OneLineError();
    OneLineCode();
    OneLineRequest();
    OneLineStatus();
    OneLineShape();
    assert Never("{", 'r') && Never("}", 'r');
    hide ONE_LINE, HasKey, LooseColon, Never, OnlySuccess, LineHas;
    ThreeLines(seg, "error");
    ThreeLines(seg, "code");
    ThreeLines(seg, "requestId");
    ThreeLines(seg, "statusCode");
    NoStatusKey("{");
    NoStatusKey("}");
    RequestNever("{");
    RequestNever("}");
    NeverCode("{");
    NeverKey("}", "message");
    AnchorOfThree(seg);
  }

  lemma OneLineWritten()
    ensures CountWritten(OneLineBlock()) >= 2 && SuccessFalse(Join(OneLineBlock()))
  {
    var seg := OneLineBlock();
    BracketLine("{");
    OneLineFalse();
    OneLineShape();
    hide ONE_LINE, Blank, SuccessFalse, Join, CountWritten;
    CountTwo(seg, 0);
    SuccessInText(seg, 1);
  }

  lemma OneLineSkips(rules: Rules)
    requires rules.codeOf(Join(OneLineBlock())) == Some("X") && rules.known("X")
    ensures SkipsPair(OneLineBlock(), PlanFor(OneLineBlock(), Some("404"), rules))
  {
    var seg := OneLineBlock();
    OneLineFalse();
    assert seg[1] == ONE_LINE;
    hide OneLineBlock, ONE_LINE, HasKey, LineHas, SuccessFalse, Join, Anchor, CountWritten;
    OneLineKeys();
    OneLineWritten();
    KeyWords();
    KeysByLine(seg, "error");
    KeysByLine(seg, "code");
    KeysByLine(seg, "requestId");
    KeysByLine(seg, "statusCode");
  }

  /** Where the code stands on the line that says it failed, the first pass writes the request id there and no
      pair; a second pass writes the pair. */
  lemma OneLineTakesTwoPasses(rules: Rules)
    requires PlainRules(rules) && rules.known("X") && rules.codeOf(Join(OneLineBlock())) == Some("X")
    requires rules.codeOf(Join(FixBlock(OneLineBlock(), Some("404"), rules))) == Some("X")
    ensures var once := FixBlock(OneLineBlock(), Some("404"), rules);
            FixBlock(once, Some("404"), rules) != once
  {
    hide OneLineBlock, PlanFor, FixBlock, SkipsPair, NoLooseColon, LineHas;
    OneLineKeys();
    OneLineSkips(rules);
    SecondPassExactly(OneLineBlock(), Some("404"), rules);
  }
}
