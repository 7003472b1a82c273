/** What a generated tool sends: `jsonExpression`, and the string literals inside it. */
module RequestBody {
  import opened Options
  import opened JsText
  import opened CanonicalJson
  import PathArgument

  // ---------- Catalogue text as a string literal inside an expression ----------

  /** A backslash in front of each `c`. */
  function Before(c: char, s: string): string {
    if s == [] then [] else (if s[0] == c then [BACKSLASH, c] else [s[0]]) + Before(c, s[1..])
  }

  /** `replace(/\s+/g, ' ')`. */
  function Collapse(s: string): string {
    if s == [] then []
    else if !IsSpace(s[0]) then [s[0]] + Collapse(s[1..])
    else if |s| > 1 && IsSpace(s[1]) then Collapse(s[1..])
    else [' '] + Collapse(s[1..])
  }

  const QUOTE := '"'

  function Inside(text: string): string {
    PathArgument.Trim(Collapse(Before(QUOTE, Before(BACKSLASH, text))))
  }

  function Literal(text: string): string {
    [QUOTE] + Inside(text) + [QUOTE]
  }

  /** Reading on from behind the opening quote, with the two escapes that occur. */
  function Read(s: string): Option<(string, string)> {
    if s == [] || s[0] == '\n' || s[0] == '\r' then None
    else if s[0] == QUOTE then Some(([], s[1..]))
    else if s[0] != BACKSLASH then Prepend(s[0], Read(s[1..]))
    else if |s| > 1 && (s[1] == QUOTE || s[1] == BACKSLASH) then Prepend(s[1], Read(s[2..]))
    else None
  }

  function Prepend(c: char, r: Option<(string, string)>): Option<(string, string)> {
    match r
    case None => None
    case Some(p) => Some(([c] + p.0, p.1))
  }

  // ---------- The expression and what it evaluates to ----------

  const NEVER_MODEL_FACING: set<string> := {"page", "limit"}

  datatype Entry = Identity | Bare(param: string) | Defaulted(param: string)

  function EntryFor(param: string, required: set<string>): Entry {
    if param in required then Bare(param) else Defaulted(param)
  }

  function EntriesOf(params: seq<string>, required: set<string>): seq<Entry> {
    if params == [] then []
    else (if params[0] in NEVER_MODEL_FACING then [] else [EntryFor(params[0], required)])
         + EntriesOf(params[1..], required)
  }

  method JsonExpression(params: seq<string>, required: set<string>, includeIdentity: bool) returns (fields: seq<Entry>)
    ensures fields == (if includeIdentity then [Identity] else []) + EntriesOf(params, required)
  {
    fields := if includeIdentity then [Identity] else [];
    ghost var first := fields;
    assert params[0..] == params;
    for i := 0 to |params|
      invariant fields + EntriesOf(params[i..], required) == first + EntriesOf(params, required)
    {
      assert params[i..][1..] == params[i + 1..];
      if params[i] in NEVER_MODEL_FACING { continue; }
      fields := fields + [EntryFor(params[i], required)];
    }
  }

  predicate Truthy(v: Value) {
    match v
    case Undefined => false
    case Null => false
    case Bool(b) => b
    case Num(n) => n != "0"
    case Str(s) => s != ""
    case _ => true
  }

  /** An own property of the object literal; `__proto__` does not become one. */
  function Put(body: map<string, Value>, key: string, v: Value): map<string, Value> {
    if key == "__proto__" then body else body[key := v]
  }

  /** The object literal, its entries evaluated from left to right. */
  function Evaluate(fields: seq<Entry>, identity: Value, values: map<string, Value>, body: map<string, Value>)
    : map<string, Value>
  {
    if fields == [] then body
    else
      var next := match fields[0]
        case Identity => Put(body, "identity", identity)
        case Bare(p) => Put(body, p, Supplied(values, p))
        case Defaulted(p) => Put(body, p, if Truthy(Supplied(values, p)) then Supplied(values, p) else Undefined);
      Evaluate(fields[1..], identity, values, next)
  }

  /** What the model wrote for an argument, if anything. */
  function Supplied(values: map<string, Value>, p: string): Value {
    if p in values then values[p] else Undefined
  }

  /** JSON.stringify leaves undefined members out. */
  function Sent(params: seq<string>, required: set<string>, identity: Option<Value>, values: map<string, Value>)
    : map<string, Value>
  {
    var fields := (if identity.Some? then [Identity] else []) + EntriesOf(params, required);
    var body := Evaluate(fields, if identity.Some? then identity.value else Undefined, values, map[]);
    map k | k in body && body[k] != Undefined :: body[k]
  }

  // ---------- A literal ends where it should and says what the text said ----------

  function Escaped(s: string): string {
    if s == [] then [] else EscapedChar(s[0]) + Escaped(s[1..])
  }

  function EscapedChar(c: char): string {
    if c == QUOTE || c == BACKSLASH then [BACKSLASH, c] else [c]
  }

  lemma {:induction false} TwoPasses(s: string)
    ensures Before(QUOTE, Before(BACKSLASH, s)) == Escaped(s)
  {
    if s != [] {
      TwoPasses(s[1..]);
      var rest := Before(BACKSLASH, s[1..]);
      if s[0] == BACKSLASH {
        assert ([BACKSLASH, BACKSLASH] + rest)[1..] == [BACKSLASH] + rest;
        assert ([BACKSLASH] + rest)[1..] == rest;
      } else {
        assert ([s[0]] + rest)[1..] == rest;
      }
    }
  }

  lemma {:induction false} EscapedSnoc(s: string, c: char)
    ensures Escaped(s + [c]) == Escaped(s) + EscapedChar(c)
  {
    hide EscapedChar;
    if s == [] {
      EscapedCons(c, []);
      assert [] + [c] == [c] + [];
    } else {
      EscapedSnoc(s[1..], c);
      assert s + [c] == [s[0]] + (s[1..] + [c]);
      EscapedCons(s[0], s[1..] + [c]);
    }
  }

  lemma {:induction false} CollapseEscaped(s: string)
    ensures Collapse(Escaped(s)) == Escaped(Collapse(s))
  {
    if s != [] {
      CollapseEscaped(s[1..]);
      EscapedHead(s[1..]);
      CollapseHead(s[0], Escaped(s[1..]));
      EscapedCons(if IsSpace(s[0]) then ' ' else s[0], Collapse(s[1..]));
    }
  }

  lemma EscapedHead(s: string)
    ensures s == [] <==> Escaped(s) == []
    ensures s != [] ==> (IsSpace(Escaped(s)[0]) <==> IsSpace(s[0]))
  {
  }

  lemma EscapedCons(c: char, s: string)
    ensures Escaped([c] + s) == EscapedChar(c) + Escaped(s)
  {
    assert ([c] + s)[1..] == s;
  }

  lemma CollapseHead(c: char, rest: string)
    ensures !IsSpace(c) ==> Collapse(EscapedChar(c) + rest) == EscapedChar(c) + Collapse(rest)
    ensures IsSpace(c) ==> Collapse(EscapedChar(c) + rest) ==
                           if rest != [] && IsSpace(rest[0]) then Collapse(rest) else [' '] + Collapse(rest)
  {
    hide Collapse, IsSpace;
    SpaceIsPlain(c);
    if IsSpace(c) {
      CollapseSpace(c, rest);
    } else {
      CollapsePlain(c, rest);
      if EscapedChar(c) != [c] {
        CollapsePlain(BACKSLASH, [c] + rest);
        assert EscapedChar(c) + rest == [BACKSLASH] + ([c] + rest);
      }
    }
  }

  lemma SpaceIsPlain(c: char)
    ensures IsSpace(c) ==> EscapedChar(c) == [c]
    ensures !IsSpace(BACKSLASH)
  {
  }

  lemma CollapseSpace(c: char, rest: string)
    requires IsSpace(c)
    ensures Collapse([c] + rest) ==
            if rest != [] && IsSpace(rest[0]) then Collapse(rest) else [' '] + Collapse(rest)
  {
    hide IsSpace;
    assert ([c] + rest)[1..] == rest;
  }

  lemma CollapsePlain(c: char, rest: string)
    requires !IsSpace(c)
    ensures Collapse([c] + rest) == [c] + Collapse(rest)
  {
    hide IsSpace;
    assert ([c] + rest)[1..] == rest;
  }

  lemma {:induction false} TrimStartEscaped(s: string)
    ensures PathArgument.TrimStart(Escaped(s)) == Escaped(PathArgument.TrimStart(s))
  {
    if s != [] {
      EscapedHead(s);
      if IsSpace(s[0]) {
        TrimStartEscaped(s[1..]);
        assert Escaped(s)[1..] == Escaped(s[1..]);
      }
    }
  }

  lemma {:induction false} TrimEndEscaped(s: string)
    ensures PathArgument.TrimEnd(Escaped(s)) == Escaped(PathArgument.TrimEnd(s))
  {
    if s != [] {
      var front, c := s[..|s| - 1], s[|s| - 1];
      assert s == front + [c];
      EscapedSnoc(front, c);
      if IsSpace(c) {
        TrimEndEscaped(front);
        assert Escaped(s)[..|Escaped(s)| - 1] == Escaped(front);
      }
    }
  }

  lemma InsideIsEscaped(text: string)
    ensures Inside(text) == Escaped(PathArgument.Trim(Collapse(text)))
  {
    TwoPasses(text);
    CollapseEscaped(text);
    TrimStartEscaped(Collapse(text));
    TrimEndEscaped(PathArgument.TrimStart(Collapse(text)));
  }

  predicate OneLine(s: string) {
    forall i :: 0 <= i < |s| ==> IsSpace(s[i]) ==> s[i] == ' '
  }

  lemma {:induction false} CollapseOneLine(s: string)
    ensures OneLine(Collapse(s))
  {
    if s != [] { CollapseOneLine(s[1..]); }
  }

  lemma {:induction false} TrimKeepsOneLine(s: string)
    requires OneLine(s)
    ensures OneLine(PathArgument.TrimStart(s)) && OneLine(PathArgument.TrimEnd(s))
  {
    if s != [] {
      TrimKeepsOneLine(s[1..]);
      TrimKeepsOneLine(s[..|s| - 1]);
    }
  }

  lemma ReadChar(c: char, tail: string)
    requires c != '\n' && c != '\r'
    ensures Read(EscapedChar(c) + tail) == Prepend(c, Read(tail))
  {
    var s := EscapedChar(c) + tail;
    hide Prepend;
    if c == QUOTE || c == BACKSLASH {
      assert s[2..] == tail;
    } else {
      assert s[1..] == tail;
    }
  }

  lemma ReadEnd(rest: string)
    ensures Read([QUOTE] + rest) == Some(([], rest))
  {
    assert ([QUOTE] + rest)[1..] == rest;
  }

  lemma {:induction false} ReadEscaped(s: string, rest: string)
    requires OneLine(s)
    ensures Read(Escaped(s) + [QUOTE] + rest) == Some((s, rest))
  {
    hide Read, EscapedChar;
    if s == [] {
      ReadEnd(rest);
      assert Escaped(s) + [QUOTE] + rest == [QUOTE] + rest;
    } else {
      ReadEscaped(s[1..], rest);
      assert s[0] != '\n' && s[0] != '\r';
      var tail := Escaped(s[1..]) + [QUOTE] + rest;
      ReadChar(s[0], tail);
      assert Escaped(s) + [QUOTE] + rest == EscapedChar(s[0]) + tail;
      assert s == [s[0]] + s[1..];
    }
  }

  // The text tidied: its words with one space between them.

  /** The words of the text, runs of what is no white space; `open` is the word being read. */
  function Words(s: string, open: string): seq<string>
    decreases |s|
  {
    if s == [] then (if open == [] then [] else [open])
    else if IsSpace(s[0]) then (if open == [] then [] else [open]) + Words(s[1..], [])
    else Words(s[1..], open + [s[0]])
  }

  function Spaced(words: seq<string>): string {
    if words == [] then [] else if |words| == 1 then words[0] else words[0] + " " + Spaced(words[1..])
  }

  lemma {:induction false} SpaceFirst(s: string)
    requires s != [] && IsSpace(s[0])
    ensures Collapse(s) == [' '] + PathArgument.TrimStart(Collapse(s))
    ensures PathArgument.TrimStart(Collapse(s)) == PathArgument.TrimStart(Collapse(s[1..]))
  {
    SpaceIsSpace();
    if |s| > 1 && IsSpace(s[1]) {
      SpaceFirst(s[1..]);
    } else {
      var rest := Collapse(s[1..]);
      assert ([' '] + rest)[1..] == rest;
      assert rest == [] || !IsSpace(rest[0]);
    }
  }

  lemma SpaceIsSpace()
    ensures IsSpace(' ')
  {
  }

  lemma {:induction false} EndKept(a: string, b: string)
    requires b != [] && !IsSpace(b[0])
    ensures PathArgument.TrimEnd(a + b) == a + PathArgument.TrimEnd(b) && PathArgument.TrimEnd(b) != []
  {
    if IsSpace(b[|b| - 1]) {
      assert (a + b)[..|a + b| - 1] == a + b[..|b| - 1];
      EndKept(a, b[..|b| - 1]);
    }
  }

  predicate AWord(s: string) {
    s != [] && forall i :: 0 <= i < |s| ==> !IsSpace(s[i])
  }

  lemma EndOfWord(w: string)
    requires AWord(w)
    ensures PathArgument.TrimEnd(w) == w && PathArgument.TrimEnd(w + " ") == w
  {
    SpaceIsSpace();
    assert (w + " ")[..|w|] == w;
  }

  lemma {:induction false} WordsAreWords(s: string, open: string)
    requires open == [] || AWord(open)
    ensures forall i :: 0 <= i < |Words(s, open)| ==> Words(s, open)[i] != []
    ensures open != [] ==> Words(s, open) != []
    decreases |s|
  {
    hide IsSpace;
    if s != [] { WordsAreWords(s[1..], if IsSpace(s[0]) then [] else open + [s[0]]); }
  }

  lemma SpacedEmpty(words: seq<string>)
    requires forall i :: 0 <= i < |words| ==> words[i] != []
    ensures Spaced(words) == [] <==> words == []
  {
  }

  lemma {:induction false} WordsRead(s: string, open: string)
    requires AWord(open)
    ensures PathArgument.TrimEnd(open + Collapse(s)) == Spaced(Words(s, open))
    decreases |s|
  {
    hide IsSpace;
    if s == [] {
      EndOfWord(open);
      assert open + Collapse(s) == open;
    } else if IsSpace(s[0]) {
      SpaceFirst(s);
      TidiedIs(s[1..]);
      WordsAreWords(s[1..], []);
      SpacedEmpty(Words(s[1..], []));
      var y := PathArgument.TrimStart(Collapse(s));
      assert open + ([' '] + y) == open + " " + y;
      StartTrimmed(Collapse(s));
      if y == [] {
        EndOfWord(open);
        assert open + " " + y == open + " ";
      } else {
        EndKept(open + " ", y);
        assert ([open] + Words(s[1..], []))[1..] == Words(s[1..], []);
      }
    } else {
      assert open + Collapse(s) == open + [s[0]] + Collapse(s[1..]);
      WordsRead(s[1..], open + [s[0]]);
    }
  }

  lemma {:induction false} StartTrimmed(s: string)
    ensures var t := PathArgument.TrimStart(s); t != [] ==> !IsSpace(t[0])
  {
    if s != [] && IsSpace(s[0]) { StartTrimmed(s[1..]); }
  }

  /** What tidying the text leaves. */
  lemma {:induction false} TidiedIs(s: string)
    ensures PathArgument.Trim(Collapse(s)) == Spaced(Words(s, []))
    decreases |s|
  {
    hide IsSpace;
    if s != [] {
      if IsSpace(s[0]) {
        SpaceFirst(s);
        TidiedIs(s[1..]);
        assert [] + Words(s[1..], []) == Words(s[1..], []);
      } else {
        assert [] + [s[0]] == [s[0]];
        WordsRead(s[1..], [s[0]]);
      }
    }
  }

  /** Whatever the text holds, its literal ends at its own last quote and reads back as the text's words with one
      space between them. */
  lemma LiteralReadsBack(text: string, rest: string)
    ensures Literal(text)[0] == QUOTE
    ensures Read(Literal(text)[1..] + rest) == Some((Spaced(Words(text, [])), rest))
  {
    TidiedIs(text);
    InsideIsEscaped(text);
    CollapseOneLine(text);
    TrimKeepsOneLine(Collapse(text));
    TrimKeepsOneLine(PathArgument.TrimStart(Collapse(text)));
    ReadEscaped(PathArgument.Trim(Collapse(text)), rest);
    assert Literal(text)[1..] + rest == Inside(text) + [QUOTE] + rest;
  }

  // ---------- What the model's values can and cannot reach ----------

  /** An argument of the tool's that is not a paging one and names an own property. */
  predicate ModelFacing(params: seq<string>, k: string) {
    k in params && k != "page" && k != "limit" && k != "__proto__"
  }

  /** What `||` passes over. */
  predicate Falsy(v: Value) {
    v == Undefined || v == Null || v == Bool(false) || v == Num("0") || v == Str("")
  }

  /** What is sent for an argument: a required one as written, an optional one unless it is falsy. */
  function ValueFor(required: set<string>, values: map<string, Value>, k: string): Value {
    if k !in values then Undefined
    else if k !in required && Falsy(values[k]) then Undefined
    else values[k]
  }

  lemma EntryEvaluated(p: string, required: set<string>, values: map<string, Value>)
    ensures match EntryFor(p, required)
            case Identity => false
            case Bare(q) => q == p && Supplied(values, p) == ValueFor(required, values, p)
            case Defaulted(q) =>
              q == p && ValueFor(required, values, p) ==
                if Truthy(Supplied(values, p)) then Supplied(values, p) else Undefined
  {
  }

  lemma FirstEvaluated(p: string, rest: seq<Entry>, required: set<string>, identity: Value,
                       values: map<string, Value>, body: map<string, Value>)
    ensures Evaluate([EntryFor(p, required)] + rest, identity, values, body) ==
            Evaluate(rest, identity, values, Put(body, p, ValueFor(required, values, p)))
  {
    EntryEvaluated(p, required, values);
    hide EntryFor, Supplied, ValueFor, Truthy, Put;
    assert ([EntryFor(p, required)] + rest)[1..] == rest;
  }

  lemma {:induction false} EvaluatedExactly(params: seq<string>, required: set<string>, identity: Value,
                                            values: map<string, Value>, body: map<string, Value>, k: string)
    ensures var r := Evaluate(EntriesOf(params, required), identity, values, body);
            if ModelFacing(params, k) then k in r && r[k] == ValueFor(required, values, k)
            else (k in r <==> k in body) && (k in body ==> r[k] == body[k])
    decreases params
  {
    hide ValueFor, EntryFor;
    if params != [] {
      var p, rest := params[0], EntriesOf(params[1..], required);
      assert params == [p] + params[1..];
      if p in NEVER_MODEL_FACING {
        assert EntriesOf(params, required) == rest;
        hide Evaluate;
        EvaluatedExactly(params[1..], required, identity, values, body, k);
      } else {
        assert EntriesOf(params, required) == [EntryFor(p, required)] + rest;
        hide Evaluate;
        FirstEvaluated(p, rest, required, identity, values, body);
        EvaluatedExactly(params[1..], required, identity, values, Put(body, p, ValueFor(required, values, p)), k);
      }
    }
  }

  lemma WithIdentity(params: seq<string>, required: set<string>, identity: Value, values: map<string, Value>)
    ensures Evaluate([Identity] + EntriesOf(params, required), identity, values, map[]) ==
            Evaluate(EntriesOf(params, required), identity, values, map["identity" := identity])
  {
    var fields := EntriesOf(params, required);
    assert ([Identity] + fields)[1..] == fields;
    assert Put(map[], "identity", identity) == map["identity" := identity];
  }

  /** Exactly the supplied arguments the model may write are sent, each with its value; an optional one only when
      truthy. */
  lemma SentExactly(params: seq<string>, required: set<string>, identity: Option<Value>, values: map<string, Value>,
                    k: string)
    ensures var sent := Sent(params, required, identity, values);
            if ModelFacing(params, k) then
              (k in sent <==> ValueFor(required, values, k) != Undefined)
              && (k in sent ==> sent[k] == ValueFor(required, values, k))
            else
              (k in sent <==> k == "identity" && identity.Some? && identity.value != Undefined)
              && (k in sent ==> sent[k] == identity.value)
  {
    hide ModelFacing, ValueFor, Evaluate, EntriesOf;
    if identity.Some? {
      WithIdentity(params, required, identity.value, values);
      EvaluatedExactly(params, required, identity.value, values, map["identity" := identity.value], k);
    } else {
      EvaluatedExactly(params, required, Undefined, values, map[], k);
      assert [] + EntriesOf(params, required) == EntriesOf(params, required);
    }
  }

  /** The paging arguments are never sent, whatever the catalogue maps and the model writes. */
  lemma NeverPages(params: seq<string>, required: set<string>, identity: Option<Value>, values: map<string, Value>)
    ensures "page" !in Sent(params, required, identity, values) && "limit" !in Sent(params, required, identity, values)
  {
    SentExactly(params, required, identity, values, "page");
    SentExactly(params, required, identity, values, "limit");
  }

  /** The customer is the flow's under all values exactly when no argument is called `identity`. */
  lemma IdentityExactly(params: seq<string>, required: set<string>, identity: Value)
    requires identity != Undefined
    ensures (forall values: map<string, Value> ::
               var sent := Sent(params, required, Some(identity), values);
               "identity" in sent && sent["identity"] == identity)
            <==> "identity" !in params
  {
    if "identity" in params {
      var silent: map<string, Value> := map[];
      SentExactly(params, required, Some(identity), silent, "identity");
      assert "identity" !in Sent(params, required, Some(identity), silent);
    } else {
      forall values: map<string, Value>
        ensures var sent := Sent(params, required, Some(identity), values);
                "identity" in sent && sent["identity"] == identity
      {
        SentExactly(params, required, Some(identity), values, "identity");
      }
    }
  }
}
