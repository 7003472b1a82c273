/** `padEdges`: a template body may not start or end on a parameter, so static words are added at the
    edges that do, without touching the sentence in between. */
module TemplatePadding {
  import opened JsText
  import opened TemplateCompiler
  import opened TextTidy

  const LEAD_EN := "Update: "
  const LEAD_FR := "Mise \U{E0} jour : "
  const TAIL_BUTTON_EN := "Tap Open below for the full details."
  const TAIL_BUTTON_FR := "Appuyez sur Ouvrir " + "ci-dessous pour tous les d\U{E9}tails."
  const TAIL_PLAIN_EN := "You can see the details in the Wi-Mall app."
  const TAIL_PLAIN_FR := "Vous pouvez voir les " + "d\U{E9}tails dans l'application Wi-Mall."

  /** A language without words of its own gets the English ones. */
  function HeadingLead(lang: string): string {
    if lang == "fr" then LEAD_FR else LEAD_EN
  }

  function BodyTail(lang: string, hasUrlButton: bool): string {
    if hasUrlButton then (if lang == "fr" then TAIL_BUTTON_FR else TAIL_BUTTON_EN)
    else (if lang == "fr" then TAIL_PLAIN_FR else TAIL_PLAIN_EN)
  }

  // ---------- What counts as starting or ending on a parameter ----------

  /** The body without bold markers. */
  function Unformatted(ts: Template): Template {
    if ts == [] then [] else (if ts[0] == C('*') then [] else [ts[0]]) + Unformatted(ts[1..])
  }

  predicate Leading(c: char) {
    IsSpace(c) || c in "\"'([" || c == OPEN
  }

  predicate Trailing(c: char) {
    IsSpace(c) || c in "\"'.,;:!?)]" || c == CLOSE
  }

  /** The first token that is not decoration is a parameter. */
  predicate OpensOn(ts: Template) {
    ts != [] && (ts[0].Slot? || (Leading(ts[0].c) && OpensOn(ts[1..])))
  }

  /** The last token that is not punctuation is a parameter. */
  predicate ClosesOn(ts: Template) {
    ts != [] && (ts[|ts| - 1].Slot? || (Trailing(ts[|ts| - 1].c) && ClosesOn(ts[..|ts| - 1])))
  }

  predicate StartsOnParam(body: Template) {
    OpensOn(Unformatted(body))
  }

  predicate EndsOnParam(body: Template) {
    ClosesOn(Unformatted(body))
  }

  // ---------- Padding one body ----------

  /** The lead goes inside the heading's bold span when there is one. */
  function PadStart(body: Template, lead: string): Template {
    if !StartsOnParam(body) then body
    else if body != [] && body[0] == C('*') then [C('*')] + Chars(lead) + body[1..]
    else Chars(lead) + body
  }

  function PadEnd(body: Template, tail: string): Template {
    if EndsOnParam(body) then body + Chars("\n\n") + Chars(tail) else body
  }

  function Pad(body: Template, lang: string, hasUrlButton: bool): Template {
    PadEnd(PadStart(body, HeadingLead(lang)), BodyTail(lang, hasUrlButton))
  }

  // ---------- The rows, padded in place ----------

  class Row {
    const name: string
    const hasUrlButton: bool
    var bodies: map<string, Template>

    constructor (name: string, hasUrlButton: bool, bodies: map<string, Template>)
      ensures this.name == name && this.hasUrlButton == hasUrlButton && this.bodies == bodies
    {
      this.name, this.hasUrlButton, this.bodies := name, hasUrlButton, bodies;
    }
  }

  datatype Padding = Padding(name: string, start: bool, end: bool)

  /** One language of a row after a pass over `langs`. */
  function PadIn(body: Template, lang: string, langs: set<string>, hasUrlButton: bool): Template {
    if lang in langs && body != [] then Pad(body, lang, hasUrlButton) else body
  }

  /** The bodies a row holds after one pass. */
  function PadAll(bodies: map<string, Template>, langs: set<string>, hasUrlButton: bool): map<string, Template> {
    map lang | lang in bodies :: PadIn(bodies[lang], lang, langs, hasUrlButton)
  }

  predicate StartPads(bodies: map<string, Template>, lang: string) {
    lang in bodies && bodies[lang] != [] && StartsOnParam(bodies[lang])
  }

  predicate EndPads(bodies: map<string, Template>, lang: string) {
    lang in bodies && bodies[lang] != [] && EndsOnParam(PadStart(bodies[lang], HeadingLead(lang)))
  }

  function LangSet(langs: seq<string>): set<string> {
    set i | 0 <= i < |langs| :: langs[i]
  }

  method PadRow(row: Row, langs: seq<string>) returns (start: bool, end: bool)
    requires forall i, j :: 0 <= i < j < |langs| ==> langs[i] != langs[j]
    modifies row
    ensures row.bodies == PadAll(old(row.bodies), LangSet(langs), row.hasUrlButton)
    ensures start <==> exists i :: 0 <= i < |langs| && StartPads(old(row.bodies), langs[i])
    ensures end <==> exists i :: 0 <= i < |langs| && EndPads(old(row.bodies), langs[i])
  {
    hide StartsOnParam, EndsOnParam, HeadingLead, BodyTail, PadStart, PadEnd, Pad;
    ghost var before := row.bodies;
    start, end := false, false;
    for i := 0 to |langs|
      invariant row.bodies.Keys == before.Keys
      invariant forall k :: 0 <= k < i && langs[k] in before ==>
                  row.bodies[langs[k]] == PadIn(before[langs[k]], langs[k], {langs[k]}, row.hasUrlButton)
      invariant forall lang :: lang in before && (forall k :: 0 <= k < i ==> langs[k] != lang) ==>
                  row.bodies[lang] == before[lang]
      invariant start <==> exists k :: 0 <= k < i && StartPads(before, langs[k])
      invariant end <==> exists k :: 0 <= k < i && EndPads(before, langs[k])
    {
      var lang := langs[i];
      if lang in row.bodies && row.bodies[lang] != [] {
        var body := row.bodies[lang];
        PadUnfold(body, lang, row.hasUrlButton);
        if StartsOnParam(body) {
          body := PadStart(body, HeadingLead(lang));
          start := true;
        }
        if EndsOnParam(body) {
          body := PadEnd(body, BodyTail(lang, row.hasUrlButton));
          end := true;
        }
        row.bodies := row.bodies[lang := body];
      }
    }
    forall lang | lang in before
      ensures row.bodies[lang] == PadIn(before[lang], lang, LangSet(langs), row.hasUrlButton)
    {
      if lang in LangSet(langs) {
        var k :| 0 <= k < |langs| && langs[k] == lang;
      }
    }
  }

  lemma PadUnfold(body: Template, lang: string, hasUrlButton: bool)
    ensures var start := PadStart(body, HeadingLead(lang));
            && (!StartsOnParam(body) ==> start == body)
            && Pad(body, lang, hasUrlButton) == PadEnd(start, BodyTail(lang, hasUrlButton))
            && (!EndsOnParam(start) ==> PadEnd(start, BodyTail(lang, hasUrlButton)) == start)
  {
  }

  /** One line for a row that needed padding in some language, none for any other. */
  function PaddingOf(name: string, bodies: map<string, Template>, langs: seq<string>): seq<Padding> {
    var start := exists i :: 0 <= i < |langs| && StartPads(bodies, langs[i]);
    var end := exists i :: 0 <= i < |langs| && EndPads(bodies, langs[i]);
    if start || end then [Padding(name, start, end)] else []
  }

  function Paddings(names: seq<string>, all: seq<map<string, Template>>, langs: seq<string>): seq<Padding>
    requires |names| == |all|
  {
    if names == [] then []
    else
      var n := |names| - 1;
      Paddings(names[..n], all[..n], langs) + PaddingOf(names[n], all[n], langs)
  }

  function NamesOf(rows: seq<Row>): (names: seq<string>)
    ensures |names| == |rows|
  {
    seq(|rows|, i requires 0 <= i < |rows| => rows[i].name)
  }

  ghost function BodiesOf(rows: seq<Row>): (all: seq<map<string, Template>>)
    reads rows
    ensures |all| == |rows| && forall i :: 0 <= i < |rows| ==> all[i] == rows[i].bodies
  {
    seq(|rows|, i requires 0 <= i < |rows| reads rows => rows[i].bodies)
  }

  /** Pads every row in place and lists the rows that needed it, in their order. */
  method PadEdges(rows: seq<Row>, langs: seq<string>) returns (padded: seq<Padding>)
    requires forall i, j :: 0 <= i < j < |rows| ==> rows[i] != rows[j]
    requires forall i, j :: 0 <= i < j < |langs| ==> langs[i] != langs[j]
    modifies rows
    ensures forall i :: 0 <= i < |rows| ==>
              rows[i].bodies == PadAll(old(rows[i].bodies), LangSet(langs), rows[i].hasUrlButton)
    ensures padded == Paddings(NamesOf(rows), old(BodiesOf(rows)), langs)
  {
    hide PadAll, StartPads, EndPads;
    padded := [];
    ghost var names, all := NamesOf(rows), BodiesOf(rows);
    for i := 0 to |rows|
      invariant forall k :: 0 <= k < i ==>
                  rows[k].bodies == PadAll(old(rows[k].bodies), LangSet(langs), rows[k].hasUrlButton)
      invariant forall k :: i <= k < |rows| ==> rows[k].bodies == old(rows[k].bodies)
      invariant padded == Paddings(names[..i], all[..i], langs)
    {
      assert names[..i + 1][..i] == names[..i] && all[..i + 1][..i] == all[..i];
      var start, end := PadRow(rows[i], langs);
      if start || end { padded := padded + [Padding(rows[i].name, start, end)]; }
    }
    assert names[..|rows|] == names && all[..|rows|] == all;
  }

  // ---------- Padding works, keeps the sentence, and is done once ----------

  lemma {:induction false} UnformattedConcat(a: Template, b: Template)
    ensures Unformatted(a + b) == Unformatted(a) + Unformatted(b)
  {
    if a == [] {
      assert a + b == b;
    } else {
      assert (a + b)[1..] == a[1..] + b;
      UnformattedConcat(a[1..], b);
    }
  }

  /** Words that open with a character no decoration skips. */
  predicate GoodLead(s: string) {
    s != [] && s[0] != '*' && !Leading(s[0])
  }

  /** Words that close, before their full stop, with a character no punctuation skips. */
  predicate GoodTail(s: string) {
    && GoodLead(s) && |s| > 2
    && s[|s| - 1] != '*' && Trailing(s[|s| - 1])
    && s[|s| - 2] != '*' && !Trailing(s[|s| - 2])
  }

  lemma UnformattedPlain(c: char)
    ensures c != '*' ==> Unformatted([C(c)]) == [C(c)]
    ensures c == '*' ==> Unformatted([C(c)]) == []
  {
    var t: Template := [C(c)];
    assert t[1..] == [];
  }

  lemma UnformattedLead(s: string, rest: Template)
    requires GoodLead(s)
    ensures var u := Unformatted(Chars(s) + rest); u != [] && u[0] == C(s[0])
  {
    var tail := Chars(s[1..]) + rest;
    assert Chars(s) + rest == [C(s[0])] + tail;
    UnformattedConcat([C(s[0])], tail);
    UnformattedPlain(s[0]);
  }

  lemma UnformattedTail(a: Template, s: string)
    requires GoodTail(s)
    ensures var u := Unformatted(a + Chars(s));
            |u| > 1 && u[|u| - 1] == C(s[|s| - 1]) && u[|u| - 2] == C(s[|s| - 2])
  {
    var init := a + Chars(s[..|s| - 2]);
    assert a + Chars(s) == init + [C(s[|s| - 2])] + [C(s[|s| - 1])];
    UnformattedConcat(init + [C(s[|s| - 2])], [C(s[|s| - 1])]);
    UnformattedConcat(init, [C(s[|s| - 2])]);
    UnformattedPlain(s[|s| - 1]);
    UnformattedPlain(s[|s| - 2]);
  }

  lemma WordsAreGood(lang: string, hasUrlButton: bool)
    ensures GoodLead(HeadingLead(lang)) && GoodTail(BodyTail(lang, hasUrlButton))
  {
    ButtonTailsAreGood();
    PlainTailsAreGood();
    LeadsAreGood();
    hide GoodLead, GoodTail;
  }

  lemma LeadsAreGood()
    ensures GoodLead(LEAD_EN) && GoodLead(LEAD_FR)
  {
    assert LEAD_EN[0] == 'U' && LEAD_FR[0] == 'M';
  }

  lemma ButtonTailsAreGood()
    ensures GoodTail(TAIL_BUTTON_EN) && GoodTail(TAIL_BUTTON_FR)
  {
    var en, fr := TAIL_BUTTON_EN, TAIL_BUTTON_FR;
    assert en[0] == 'T' && en[|en| - 1] == '.' && en[|en| - 2] == 's';
    assert fr[0] == 'A' && fr[|fr| - 1] == '.' && fr[|fr| - 2] == 's';
  }

  lemma PlainTailsAreGood()
    ensures GoodTail(TAIL_PLAIN_EN) && GoodTail(TAIL_PLAIN_FR)
  {
    var en, fr := TAIL_PLAIN_EN, TAIL_PLAIN_FR;
    assert en[0] == 'Y' && en[|en| - 1] == '.' && en[|en| - 2] == 'p';
    assert fr[0] == 'V' && fr[|fr| - 1] == '.' && fr[|fr| - 2] == 'l';
  }

  lemma PadStartFixes(body: Template, lead: string)
    requires GoodLead(lead)
    ensures !StartsOnParam(PadStart(body, lead))
  {
    if StartsOnParam(body) {
      if body != [] && body[0] == C('*') {
        HeadingLeadFixes(lead, body[1..]);
        assert [C('*')] + Chars(lead) + body[1..] == [C('*')] + (Chars(lead) + body[1..]);
      } else {
        LeadFixes(lead, body);
      }
    }
  }

  lemma LeadFixes(lead: string, rest: Template)
    requires GoodLead(lead)
    ensures !StartsOnParam(Chars(lead) + rest)
  {
    UnformattedLead(lead, rest);
    OpensOnWord(Unformatted(Chars(lead) + rest), lead[0]);
  }

  lemma HeadingLeadFixes(lead: string, rest: Template)
    requires GoodLead(lead)
    ensures !StartsOnParam([C('*')] + (Chars(lead) + rest))
  {
    LeadFixes(lead, rest);
    hide OpensOn, Leading;
    UnformattedConcat([C('*')], Chars(lead) + rest);
    UnformattedPlain('*');
    assert [] + Unformatted(Chars(lead) + rest) == Unformatted(Chars(lead) + rest);
  }

  lemma OpensOnWord(u: Template, c: char)
    requires u != [] && u[0] == C(c) && !Leading(c)
    ensures !OpensOn(u)
  {
  }

  /** What opens on no parameter still does not when a word follows. */
  lemma {:induction false} OpensOnAppend(a: Template, w: Template)
    requires !OpensOn(a) && w != [] && w[0].C? && !Leading(w[0].c)
    ensures !OpensOn(a + w)
  {
    if a == [] {
      assert a + w == w;
    } else {
      assert (a + w)[0] == a[0] && (a + w)[1..] == a[1..] + w;
      if a[0].C? && Leading(a[0].c) { OpensOnAppend(a[1..], w); }
    }
  }

  lemma ClosesOnWord(u: Template)
    requires |u| > 1 && u[|u| - 1].C? && u[|u| - 2].C? && !Trailing(u[|u| - 2].c)
    ensures !ClosesOn(u)
  {
    var v := u[..|u| - 1];
    assert v[|v| - 1] == u[|u| - 2];
    assert !ClosesOn(v);
  }

  /** Nothing opens on a parameter for want of the blank line before the tail. */
  lemma {:induction false} OpensOnNewlines(a: Template)
    requires !OpensOn(a)
    ensures !OpensOn(a + Chars("\n\n"))
  {
    var nl: Template := Chars("\n\n");
    if a == [] {
      assert a + nl == nl && nl[1..][1..] == [] && !OpensOn(nl[1..]);
    } else {
      assert (a + nl)[0] == a[0] && (a + nl)[1..] == a[1..] + nl;
      if a[0].C? && Leading(a[0].c) { OpensOnNewlines(a[1..]); }
    }
  }

  lemma UnformattedNewlines()
    ensures Unformatted(Chars("\n\n")) == Chars("\n\n")
  {
    var nl: Template := Chars("\n\n");
    assert nl == [C('\n')] + [C('\n')];
    UnformattedConcat([C('\n')], [C('\n')]);
    UnformattedPlain('\n');
  }

  lemma PadEndFixes(body: Template, tail: string)
    requires !StartsOnParam(body) && GoodTail(tail)
    ensures !StartsOnParam(PadEnd(body, tail)) && !EndsOnParam(PadEnd(body, tail))
  {
    if EndsOnParam(body) {
      TailFixes(body, tail);
    }
  }

  lemma TailFixes(body: Template, tail: string)
    requires !StartsOnParam(body) && GoodTail(tail)
    ensures !StartsOnParam(body + Chars("\n\n") + Chars(tail)) && !EndsOnParam(body + Chars("\n\n") + Chars(tail))
  {
    var nl, words: Template := Chars("\n\n"), Chars(tail);
    UnformattedTail(body + nl, tail);
    ClosesOnWord(Unformatted(body + nl + words));
    UnformattedNewlines();
    OpensOnNewlines(Unformatted(body));
    assert words + [] == words;
    UnformattedLead(tail, []);
    hide Unformatted, OpensOn, ClosesOn, Leading, Trailing;
    UnformattedConcat(body + nl, words);
    UnformattedConcat(body, nl);
    OpensOnAppend(Unformatted(body) + nl, Unformatted(words));
    assert Unformatted(body + nl) == Unformatted(body) + nl;
    assert !OpensOn(Unformatted(body + nl + words));
    assert !StartsOnParam(body + nl + words);
  }

  /** After a pass no body starts or ends on a parameter, bold markers aside. */
  lemma PaddedEdgesAreStatic(body: Template, lang: string, hasUrlButton: bool)
    ensures !StartsOnParam(Pad(body, lang, hasUrlButton)) && !EndsOnParam(Pad(body, lang, hasUrlButton))
  {
    WordsAreGood(lang, hasUrlButton);
    PadStartFixes(body, HeadingLead(lang));
    PadEndFixes(PadStart(body, HeadingLead(lang)), BodyTail(lang, hasUrlButton));
  }

  /** The derived sentence survives in one piece, between the words that were due; only a heading's opening
      marker moves before the lead. */
  lemma SentenceSurvives(body: Template, lang: string, hasUrlButton: bool)
    ensures var heading := StartsOnParam(body) && body[0] == C('*');
            var before := if !StartsOnParam(body) then [] else Chars((if heading then "*" else "") + Lead(lang));
            var core := if heading then body[1..] else body;
            var after := if EndsOnParam(before + core) then Chars("\n\n" + Tail(lang, hasUrlButton)) else [];
            Pad(body, lang, hasUrlButton) == before + core + after
  {
    var lead, tail := HeadingLead(lang), BodyTail(lang, hasUrlButton);
    hide StartsOnParam, EndsOnParam, HeadingLead, BodyTail, Lead, Tail, PadStart, PadEnd;
    WordsAreDue(lang, hasUrlButton);
    PadStartPrepends(body, lead);
    PadEndAppends(PadStart(body, lead), tail);
  }

  /** The words of each language. */
  ghost function Lead(lang: string): string {
    if lang == "fr" then LEAD_FR else LEAD_EN
  }

  ghost function Tail(lang: string, hasUrlButton: bool): string {
    match (lang == "fr", hasUrlButton)
    case (true, true) => TAIL_BUTTON_FR
    case (true, false) => TAIL_PLAIN_FR
    case (false, true) => TAIL_BUTTON_EN
    case (false, false) => TAIL_PLAIN_EN
  }

  lemma WordsAreDue(lang: string, hasUrlButton: bool)
    ensures HeadingLead(lang) == Lead(lang) && BodyTail(lang, hasUrlButton) == Tail(lang, hasUrlButton)
  {
    hide LEAD_EN, LEAD_FR, TAIL_BUTTON_EN, TAIL_BUTTON_FR, TAIL_PLAIN_EN, TAIL_PLAIN_FR;
  }

  lemma PadStartPrepends(body: Template, lead: string)
    ensures var heading := StartsOnParam(body) && body[0] == C('*');
            var before := if !StartsOnParam(body) then [] else Chars((if heading then "*" else "") + lead);
            PadStart(body, lead) == before + (if heading then body[1..] else body)
  {
    hide *;
    PadStartCases(body, lead);
    if !StartsOnParam(body) {
      assert [] + body == body;
    } else if body[0] == C('*') {
      StarChars(lead);
    } else {
      assert "" + lead == lead;
    }
  }

  lemma PadStartCases(body: Template, lead: string)
    ensures StartsOnParam(body) ==> body != []
    ensures PadStart(body, lead) ==
            if !StartsOnParam(body) then body
            else if body[0] == C('*') then [C('*')] + Chars(lead) + body[1..]
            else Chars(lead) + body
  {
  }

  lemma StarChars(s: string)
    ensures Chars<nat>("*" + s) == [C('*')] + Chars(s)
  {
  }

  lemma PadEndAppends(p: Template, tail: string)
    ensures PadEnd(p, tail) == p + (if EndsOnParam(p) then Chars("\n\n" + tail) else [])
  {
    hide EndsOnParam;
    var nl: string := "\n\n";
    assert Chars<nat>(nl + tail) == Chars(nl) + Chars(tail);
    assert p + (Chars(nl) + Chars(tail)) == p + Chars(nl) + Chars(tail);
    assert p + [] == p;
  }

  /** A second pass changes nothing. */
  lemma PaddingIsIdempotent(bodies: map<string, Template>, langs: set<string>, hasUrlButton: bool)
    ensures var once := PadAll(bodies, langs, hasUrlButton);
            && PadAll(once, langs, hasUrlButton) == once
            && forall lang :: lang in langs ==> !StartPads(once, lang) && !EndPads(once, lang)
  {
    var once := PadAll(bodies, langs, hasUrlButton);
    forall lang | lang in once && lang in langs && once[lang] != []
      ensures Pad(once[lang], lang, hasUrlButton) == once[lang]
      ensures !StartsOnParam(once[lang]) && !EndsOnParam(once[lang])
    {
      if bodies[lang] != [] { PaddedEdgesAreStatic(bodies[lang], lang, hasUrlButton); }
    }
    hide StartsOnParam, EndsOnParam, Pad;
  }

  // ---------- The two tests, place by place ----------

  /** White space, a bold marker, an opening quote or bracket. */
  ghost predicate Before(t: Tok<nat>) {
    t.C? && (IsSpace(t.c) || t.c as int in {0x2A, 0x22, 0x27, 0x28, 0x5B, 0xAB})
  }

  /** White space, a bold marker, a closing quote or bracket, or punctuation. */
  ghost predicate After(t: Tok<nat>) {
    t.C? && (IsSpace(t.c) || t.c in "*.,;:!?)]" || t.c as int in {0x22, 0x27, 0xBB})
  }

  ghost predicate OpensAt(ts: Template, k: nat) {
    k < |ts| && ts[k].Slot? && forall j :: 0 <= j < k ==> Before(ts[j])
  }

  ghost predicate ClosesAt(ts: Template, k: nat) {
    k < |ts| && ts[k].Slot? && forall j :: k < j < |ts| ==> After(ts[j])
  }

  /** A body starts on a parameter exactly when nothing but decoration stands before one. */
  lemma {:induction false} StartsExactly(body: Template)
    ensures StartsOnParam(body) <==> exists k: nat :: OpensAt(body, k)
  {
    if body != [] {
      var rest := body[1..];
      StartsExactly(rest);
      BeforeExactly(body[0]);
      OpensOnStep(body);
      hide OpensOn, Leading, Before, IsSpace;
      forall k: nat | OpensAt(rest, k) && Before(body[0]) ensures OpensAt(body, k + 1) {
      }
      forall k: nat | OpensAt(body, k) && k > 0 ensures Before(body[0]) && OpensAt(rest, k - 1) {
        assert forall j :: 0 <= j < k - 1 ==> rest[j] == body[j + 1];
      }
      assert body[0].Slot? ==> OpensAt(body, 0);
      assert OpensAt(body, 0) ==> body[0].Slot?;
    }
  }

  lemma BeforeExactly(t: Tok<nat>)
    ensures Before(t) <==> t.C? && (t.c == '*' || Leading(t.c))
  {
  }

  lemma OpensOnStep(body: Template)
    requires body != []
    ensures StartsOnParam(body) <==>
            body[0].Slot? || (body[0].C? && (body[0].c == '*' || Leading(body[0].c)) && StartsOnParam(body[1..]))
  {
    hide Leading;
    if body[0] != C('*') {
      var u := Unformatted(body);
      assert u[0] == body[0] && u[1..] == Unformatted(body[1..]);
    } else {
      assert [] + Unformatted(body[1..]) == Unformatted(body[1..]);
    }
  }

  /** A body ends on a parameter exactly when nothing but decoration and punctuation stands behind one. */
  lemma {:induction false} EndsExactly(body: Template)
    ensures EndsOnParam(body) <==> exists k: nat :: ClosesAt(body, k)
    decreases |body|
  {
    if body != [] {
      var n := |body| - 1;
      var init := body[..n];
      EndsExactly(init);
      AfterExactly(body[n]);
      ClosesOnStep(body);
      hide ClosesOn, Trailing, After, IsSpace;
      forall k: nat | ClosesAt(init, k) && After(body[n]) ensures ClosesAt(body, k) {
        assert forall j :: k < j < n ==> init[j] == body[j];
      }
      forall k: nat | ClosesAt(body, k) && k < n ensures After(body[n]) && ClosesAt(init, k) {
        assert forall j :: k < j < n ==> init[j] == body[j];
      }
      assert body[n].Slot? ==> ClosesAt(body, n);
      assert ClosesAt(body, n) ==> body[n].Slot?;
    }
  }

  lemma AfterExactly(t: Tok<nat>)
    ensures After(t) <==> t.C? && (t.c == '*' || Trailing(t.c))
  {
  }

  lemma ClosesOnStep(body: Template)
    requires body != []
    ensures var n := |body| - 1;
            EndsOnParam(body) <==>
            body[n].Slot? || (body[n].C? && (body[n].c == '*' || Trailing(body[n].c)) && EndsOnParam(body[..n]))
  {
    hide Trailing, Unformatted;
    var n := |body| - 1;
    var init, last := body[..n], [body[n]];
    assert body == init + last;
    UnformattedConcat(init, last);
    UnformattedOne(body[n]);
    if body[n] != C('*') {
      assert (Unformatted(init) + last)[..|Unformatted(init)|] == Unformatted(init);
    } else {
      assert Unformatted(init) + [] == Unformatted(init);
    }
  }

  lemma UnformattedOne(t: Tok<nat>)
    ensures Unformatted([t]) == if t == C('*') then [] else [t]
  {
    var one: Template := [t];
    assert one[1..] == [];
  }
}
