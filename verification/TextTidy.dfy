/** Text with holes, and the passes that tidy its white space. */
module TextTidy {
  import opened JsText

  /** Text with holes: named by key in the copy, by position in a template. */
  datatype Tok<T> = C(c: char) | Slot(s: T)

  predicate IsLetter(c: char) {
    'a' <= c <= 'z' || 'A' <= c <= 'Z'
  }

  datatype Class = Letters | Blanks | Punctuation | Newlines | Spaces

  predicate InClass(c: char, p: Class) {
    match p
    case Letters => IsLetter(c)
    case Blanks => c == ' ' || c == '\t'
    case Punctuation => c in ".,;:!?"
    case Newlines => c == '\n'
    case Spaces => IsSpace(c)
  }

  predicate Is<T>(t: Tok<T>, p: Class) {
    t.C? && InClass(t.c, p)
  }

  function Run<T>(ts: seq<Tok<T>>, p: Class): (n: nat)
    ensures n <= |ts| && forall i :: 0 <= i < n ==> Is(ts[i], p)
    ensures n < |ts| ==> !Is(ts[n], p)
  {
    if ts != [] && Is(ts[0], p) then 1 + Run(ts[1..], p) else 0
  }

  function CollapseBlanks<T>(ts: seq<Tok<T>>): seq<Tok<T>>
    decreases |ts|
  {
    if ts == [] then []
    else
      var n := Run(ts, Blanks);
      if n >= 2 then [C(' ')] + CollapseBlanks(ts[n..]) else [ts[0]] + CollapseBlanks(ts[1..])
  }

  function DropBlanksBeforePunctuation<T>(ts: seq<Tok<T>>): seq<Tok<T>>
    decreases |ts|
  {
    if ts == [] then []
    else
      var n := Run(ts, Blanks);
      if n > 0 && n < |ts| && Is(ts[n], Punctuation)
      then DropBlanksBeforePunctuation(ts[n..])
      else [ts[0]] + DropBlanksBeforePunctuation(ts[1..])
  }

  function CapNewlines<T>(ts: seq<Tok<T>>): seq<Tok<T>>
    decreases |ts|
  {
    if ts == [] then []
    else
      var n := Run(ts, Newlines);
      if n >= 3 then [C('\n'), C('\n')] + CapNewlines(ts[n..]) else [ts[0]] + CapNewlines(ts[1..])
  }

  function TrimLineEnds<T>(ts: seq<Tok<T>>): seq<Tok<T>> {
    if ts == [] then []
    else
      var r := TrimLineEnds(ts[1..]);
      if Is(ts[0], Spaces) && ts[0] != C('\n') && (r == [] || r[0] == C('\n')) then r else [ts[0]] + r
  }

  function TrimFront<T>(ts: seq<Tok<T>>): seq<Tok<T>> {
    ts[Run(ts, Spaces)..]
  }

  function TrimBack<T>(ts: seq<Tok<T>>): seq<Tok<T>> {
    if ts != [] && Is(ts[|ts| - 1], Spaces) then TrimBack(ts[..|ts| - 1]) else ts
  }

  const PASSES := 6

  /** The `n`-th of the passes that `tidy` makes once the sentinels are gone. */
  function Pass<T>(n: nat, ts: seq<Tok<T>>): seq<Tok<T>> {
    match n
    case 1 => CollapseBlanks(ts)
    case 2 => DropBlanksBeforePunctuation(ts)
    case 3 => CapNewlines(ts)
    case 4 => TrimLineEnds(ts)
    case 5 => TrimFront(ts)
    case _ => TrimBack(ts)
  }

  function Passes<T>(n: nat, ts: seq<Tok<T>>): seq<Tok<T>> {
    if n == 0 then ts else Pass(n, Passes(n - 1, ts))
  }

  function TidySpace<T>(ts: seq<Tok<T>>): seq<Tok<T>> {
    Passes(PASSES, ts)
  }

  // ---------- What each pass does first ----------

  lemma CollapseStep<T>(ts: seq<Tok<T>>)
    requires ts != []
    ensures var n := Run(ts, Blanks);
            CollapseBlanks(ts) ==
            if n >= 2 then [C(' ')] + CollapseBlanks(ts[n..]) else [ts[0]] + CollapseBlanks(ts[1..])
  {
  }

  lemma CollapseNothing<T>()
    ensures CollapseBlanks<T>([]) == []
  {
  }

  lemma PunctuationStep<T>(ts: seq<Tok<T>>)
    requires ts != []
    ensures var n := Run(ts, Blanks);
            DropBlanksBeforePunctuation(ts) ==
            if n > 0 && n < |ts| && Is(ts[n], Punctuation) then DropBlanksBeforePunctuation(ts[n..])
            else [ts[0]] + DropBlanksBeforePunctuation(ts[1..])
  {
  }

  lemma PunctuationNothing<T>()
    ensures DropBlanksBeforePunctuation<T>([]) == []
  {
  }

  lemma NewlinesStep<T>(ts: seq<Tok<T>>)
    requires ts != []
    ensures var n := Run(ts, Newlines);
            CapNewlines(ts) ==
            if n >= 3 then [C('\n'), C('\n')] + CapNewlines(ts[n..]) else [ts[0]] + CapNewlines(ts[1..])
  {
  }

  lemma NewlinesNothing<T>()
    ensures CapNewlines<T>([]) == []
  {
  }
}
