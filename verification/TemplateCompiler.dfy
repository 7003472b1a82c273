/** Keyed copy into positional templates: `collect`. */
module TemplateCompiler {
  import opened Options
  import opened JsText
  import opened Respacing
  import opened TextTidy

  type Copy = seq<Tok<string>>
  type Template = seq<Tok<nat>>

  const OPEN := 0xAB as char
  const CLOSE := 0xBB as char

  function Chars<T>(s: string): (r: seq<Tok<T>>)
    ensures |r| == |s| && forall i :: 0 <= i < |s| ==> r[i] == C(s[i])
  {
    seq(|s|, i requires 0 <= i < |s| => C(s[i]))
  }

  /** The text with every hole replaced by its value. */
  function Fill<T>(ts: seq<Tok<T>>, value: T -> string): string {
    if ts == [] then []
    else (if ts[0].C? then [ts[0].c] else value(ts[0].s)) + Fill(ts[1..], value)
  }

  function Sentinel(key: string): string {
    [OPEN] + key + [CLOSE]
  }

  /** Rendering against the sentinel context. */
  function RenderSentinels(copy: Copy): string {
    Fill(copy, Sentinel)
  }

  // ---------- Substitution on the rendered text ----------
  //
  // The copy is rendered with every value replaced by a sentinel, and each sentinel found in the text
  // becomes the position of the parameter that carries it.

  function LetterRun(s: string): (n: nat)
    ensures n <= |s| && forall i :: 0 <= i < n ==> IsLetter(s[i])
    ensures n < |s| ==> !IsLetter(s[n])
  {
    if s != [] && IsLetter(s[0]) then 1 + LetterRun(s[1..]) else 0
  }

  /** The key of a match of the sentinel pattern at the start of `s`. */
  function SentinelAt(s: string): Option<string> {
    if s == [] || s[0] != OPEN then None
    else
      var n := LetterRun(s[1..]);
      if n > 0 && n + 1 < |s| && s[n + 1] == CLOSE then Some(s[1..n + 1]) else None
  }

  /** `params.indexOf(…)`. */
  function IndexOf(params: seq<string>, p: string): Option<nat> {
    if params == [] then None
    else if params[0] == p then Some(0)
    else match IndexOf(params[1..], p) case None => None case Some(i) => Some(i + 1)
  }

  /** What one sentinel is replaced by; left as it is when no parameter carries it alone. */
  function Replacement(key: string, params: seq<string>, bold: bool): Template {
    match IndexOf(params, Sentinel(key))
    case None => Chars(Sentinel(key))
    case Some(i) => if bold then [C('*'), Slot(i), C('*')] else [Slot(i)]
  }

  function Substitute(s: string, params: seq<string>, bold: bool): Template
    decreases |s|
  {
    if s == [] then []
    else match SentinelAt(s)
      case None => [C(s[0])] + Substitute(s[1..], params, bold)
      case Some(key) => Replacement(key, params, bold) + Substitute(s[|key| + 2..], params, bold)
  }

  /** The keys `substitute` reports as carried by no parameter. */
  function Unsupplied(s: string, params: seq<string>): set<string>
    decreases |s|
  {
    if s == [] then {}
    else match SentinelAt(s)
      case None => Unsupplied(s[1..], params)
      case Some(key) =>
        (if IndexOf(params, Sentinel(key)) == None then {key} else {}) + Unsupplied(s[|key| + 2..], params)
  }

  // ---------- Tidying ----------

  /** Whether the sentinel pattern matches at the start of `ts`, and how many letters it holds. */
  function LeftoverAt<T>(ts: seq<Tok<T>>): Option<nat> {
    if ts == [] || ts[0] != C(OPEN) then None
    else
      var n := Run(ts[1..], Letters);
      if n > 0 && n + 1 < |ts| && ts[n + 1] == C(CLOSE) then Some(n) else None
  }

  function StripSentinels<T>(ts: seq<Tok<T>>): seq<Tok<T>>
    decreases |ts|
  {
    if ts == [] then []
    else match LeftoverAt(ts)
      case None => [ts[0]] + StripSentinels(ts[1..])
      case Some(n) => StripSentinels(ts[n + 2..])
  }

  function Tidy<T>(ts: seq<Tok<T>>): seq<Tok<T>> {
    TidySpace(StripSentinels(ts))
  }

  // ---------- One row of the catalogue ----------

  datatype Text = Text(subject: string, body: string)

  function CompileBody(text: Text, params: seq<string>): Template {
    var heading := if text.subject != [] then [C('*')] + Substitute(text.subject, params, false) + [C('*')] else [];
    var body := Substitute(text.body, params, true);
    Tidy(if heading != [] then heading + Chars("\n\n") + body else body)
  }

  function UnsuppliedIn(text: Text, params: seq<string>): set<string> {
    Unsupplied(text.subject, params) + Unsupplied(text.body, params)
  }

  // ---------- The rendered text gives the copy back ----------

  /** What the sentinel pattern accepts as a key. */
  predicate LettersOnly(key: string) {
    key != [] && forall i :: 0 <= i < |key| ==> IsLetter(key[i])
  }

  ghost predicate LetterKeys(copy: Copy) {
    forall t :: t in copy && t.Slot? ==> LettersOnly(t.s)
  }

  /** Nowhere does the copy's own text spell out a sentinel; guillemets of any other use are fine. */
  ghost predicate NoRuns(copy: Copy) {
    forall i :: 0 <= i < |copy| ==> LeftoverAt(copy[i..]) == None
  }

  ghost predicate Clean(copy: Copy) {
    LetterKeys(copy) && NoRuns(copy)
  }

  lemma {:induction false} LetterRunOf(key: string, rest: string)
    requires forall i :: 0 <= i < |key| ==> IsLetter(key[i])
    ensures LetterRun(key + [CLOSE] + rest) == |key|
  {
    var s := key + [CLOSE] + rest;
    if key == [] {
      assert s[0] == CLOSE;
    } else {
      assert s[0] == key[0] && s[1..] == key[1..] + [CLOSE] + rest;
      LetterRunOf(key[1..], rest);
    }
  }

  lemma SentinelAtSentinel(key: string, rest: string)
    requires LettersOnly(key)
    ensures SentinelAt(Sentinel(key) + rest) == Some(key)
    ensures (Sentinel(key) + rest)[|key| + 2..] == rest
  {
    var s := Sentinel(key) + rest;
    LetterRunOf(key, rest);
    assert s[1..] == key + [CLOSE] + rest;
    assert s[|key| + 1] == CLOSE && s[1..|key| + 1] == key;
  }

  lemma CleanTail(copy: Copy)
    requires Clean(copy) && copy != []
    ensures Clean(copy[1..]) && copy[0] in copy && LeftoverAt(copy) == None
  {
    hide LeftoverAt;
    NoRunsStep(copy);
  }

  lemma NoRunsStep(copy: Copy)
    requires copy != []
    ensures NoRuns(copy) <==> LeftoverAt(copy) == None && NoRuns(copy[1..])
  {
    hide LeftoverAt;
    assert copy[0..] == copy;
    forall i | 0 <= i < |copy[1..]| ensures copy[1..][i..] == copy[i + 1..] {
    }
    forall i | 0 < i < |copy| ensures copy[i..] == copy[1..][i - 1..] {
    }
  }

  /** The characters of literal text. */
  function KeyOf(copy: Copy): (key: string)
    ensures |key| == |copy|
  {
    seq(|copy|, i requires 0 <= i < |copy| => if copy[i].C? then copy[i].c else OPEN)
  }

  lemma RenderCons(copy: Copy)
    requires copy != []
    ensures RenderSentinels(copy) ==
            (if copy[0].C? then [copy[0].c] else Sentinel(copy[0].s)) + RenderSentinels(copy[1..])
  {
  }

  lemma {:induction false} RenderLiteral(copy: Copy, n: nat)
    requires n <= |copy| && forall i :: 0 <= i < n ==> copy[i].C?
    ensures RenderSentinels(copy) == KeyOf(copy[..n]) + RenderSentinels(copy[n..])
  {
    hide RenderSentinels;
    if n == 0 {
      assert copy[0..] == copy && KeyOf(copy[..0]) == [];
    } else {
      RenderCons(copy);
      RenderLiteral(copy[1..], n - 1);
      assert copy[1..][n - 1..] == copy[n..];
      assert KeyOf(copy[..n]) == [copy[0].c] + KeyOf(copy[1..][..n - 1]);
    }
  }

  lemma LetterRunCons(c: char, tail: string)
    ensures LetterRun([c] + tail) == if IsLetter(c) then 1 + LetterRun(tail) else 0
  {
    assert ([c] + tail)[1..] == tail;
  }

  /** A run of letters in the copy is the same run in its rendering. */
  lemma {:induction false} RenderedRun(copy: Copy)
    ensures LetterRun(RenderSentinels(copy)) == Run(copy, Letters)
  {
    hide RenderSentinels, LetterRun, IsLetter;
    if copy == [] {
      Nothing();
      NoRunInNothing();
      assert LetterRun([]) == 0;
    } else {
      RenderCons(copy);
      if copy[0].C? {
        LetterRunCons(copy[0].c, RenderSentinels(copy[1..]));
        RenderedRun(copy[1..]);
      } else {
        NoLetter(copy[0].s);
        LetterRunCons(OPEN, copy[0].s + [CLOSE] + RenderSentinels(copy[1..]));
        assert Sentinel(copy[0].s) + RenderSentinels(copy[1..])
            == [OPEN] + (copy[0].s + [CLOSE] + RenderSentinels(copy[1..]));
      }
    }
  }

  lemma NoLetter(key: string)
    ensures !IsLetter(OPEN) && !IsLetter(CLOSE)
  {
  }

  /** On rendered text the pattern matches at literal text exactly where that text spells out a sentinel. */
  lemma RunsAreSeen(copy: Copy)
    requires copy != [] && copy[0].C?
    ensures match LeftoverAt(copy)
            case None => SentinelAt(RenderSentinels(copy)) == None
            case Some(n) =>
              && SentinelAt(RenderSentinels(copy)) == Some(KeyOf(copy[1..n + 1]))
              && RenderSentinels(copy)[n + 2..] == RenderSentinels(copy[n + 2..])
  {
    hide RenderSentinels, IsLetter;
    var rest := copy[1..];
    var n, tail := Run(rest, Letters), RenderSentinels(rest);
    RenderCons(copy);
    RenderedRun(rest);
    RenderLiteral(rest, n);
    assert copy[1..n + 1] == rest[..n] && rest[n..] == copy[n + 1..];
    assert RenderSentinels(copy) == [copy[0].c] + (KeyOf(rest[..n]) + RenderSentinels(rest[n..]));
    assert RenderSentinels(copy)[1..n + 1] == KeyOf(copy[1..n + 1]);
    if rest[n..] == [] {
      Nothing();
    } else {
      RenderCons(rest[n..]);
      assert rest[n..][1..] == copy[n + 2..];
    }
  }

  lemma Nothing()
    ensures RenderSentinels([]) == []
  {
  }

  function Piece(t: Tok<string>, params: seq<string>, bold: bool): Template {
    if t.C? then [C(t.c)] else Replacement(t.s, params, bold)
  }

  /** What `substitute` makes of a copy, hole by hole. */
  function SubstituteCopy(copy: Copy, params: seq<string>, bold: bool): Template {
    if copy == [] then [] else Piece(copy[0], params, bold) + SubstituteCopy(copy[1..], params, bold)
  }

  lemma {:induction false} SubstituteSeesTheCopy(copy: Copy, params: seq<string>, bold: bool)
    requires Clean(copy)
    ensures Substitute(RenderSentinels(copy), params, bold) == SubstituteCopy(copy, params, bold)
    ensures forall k :: k in Unsupplied(RenderSentinels(copy), params) <==>
              Slot(k) in copy && IndexOf(params, Sentinel(k)) == None
  {
    hide RenderSentinels, SentinelAt, Substitute, Unsupplied, SubstituteCopy, Clean, Replacement, IndexOf;
    if copy == [] {
      Nothing();
      NothingSubstituted(params, bold);
    } else {
      CleanTail(copy);
      SubstituteSeesTheCopy(copy[1..], params, bold);
      RenderCons(copy);
      SubstituteFirst(copy, params, bold);
      var s, rest := RenderSentinels(copy), RenderSentinels(copy[1..]);
      assert copy == [copy[0]] + copy[1..];
      if copy[0].C? {
        RunsAreSeen(copy);
        assert s[1..] == rest;
      } else {
        CleanKey(copy);
        SentinelAtSentinel(copy[0].s, rest);
      }
      SubstituteStep(s, params, bold);
    }
  }

  lemma NothingSubstituted(params: seq<string>, bold: bool)
    ensures Substitute([], params, bold) == SubstituteCopy([], params, bold) && Unsupplied([], params) == {}
  {
  }

  lemma SubstituteStep(s: string, params: seq<string>, bold: bool)
    requires s != []
    ensures match SentinelAt(s)
            case None =>
              && Substitute(s, params, bold) == [C(s[0])] + Substitute(s[1..], params, bold)
              && Unsupplied(s, params) == Unsupplied(s[1..], params)
            case Some(key) =>
              && |key| + 2 <= |s|
              && Substitute(s, params, bold)
                 == Replacement(key, params, bold) + Substitute(s[|key| + 2..], params, bold)
              && Unsupplied(s, params) ==
                 (if IndexOf(params, Sentinel(key)) == None then {key} else {}) + Unsupplied(s[|key| + 2..], params)
  {
    if SentinelAt(s).Some? { SentinelIsPrefix(s); }
    hide SentinelAt, Replacement, IndexOf;
  }

  lemma {:induction false} SentinelOnly(pc: Copy, key: string)
    requires Clean(pc) && LettersOnly(key)
    ensures RenderSentinels(pc) == Sentinel(key) <==> pc == [Slot(key)]
  {
    if pc != [] {
      CleanTail(pc);
      var rest := RenderSentinels(pc[1..]);
      SentinelAtSentinel(key, []);
      assert Sentinel(key) + [] == Sentinel(key);
      if pc[0].C? {
        RunsAreSeen(pc);
      } else {
        SentinelAtSentinel(pc[0].s, rest);
        assert RenderSentinels(pc) == Sentinel(pc[0].s) + rest;
        RenderedLength(pc[1..]);
        assert pc == [pc[0]] + pc[1..];
      }
    }
  }

  lemma RenderedLength(copy: Copy)
    ensures RenderSentinels(copy) == [] <==> copy == []
  {
  }

  // ---------- Any text at all: what the pattern takes it for ----------

  /** The copy a text is read as: every match of the sentinel pattern is taken for a value. */
  function Seen(s: string): Copy
    decreases |s|
  {
    if s == [] then []
    else match SentinelAt(s)
      case None => [C(s[0])] + Seen(s[1..])
      case Some(key) => [Slot(key)] + Seen(s[|key| + 2..])
  }

  lemma SentinelIsPrefix(s: string)
    requires SentinelAt(s).Some?
    ensures var key := SentinelAt(s).value;
            LettersOnly(key) && |key| + 2 <= |s| && s == Sentinel(key) + s[|key| + 2..]
  {
    var n := LetterRun(s[1..]);
    assert s == [s[0]] + s[1..n + 1] + [s[n + 1]] + s[n + 2..];
  }

  lemma RenderAppend(t: Tok<string>, copy: Copy)
    ensures RenderSentinels([t] + copy) == (if t.C? then [t.c] else Sentinel(t.s)) + RenderSentinels(copy)
  {
    assert ([t] + copy)[1..] == copy;
  }

  /** A text is the rendering of the clean copy it is read as. */
  lemma {:induction false} SeenIsClean(s: string)
    ensures RenderSentinels(Seen(s)) == s && Clean(Seen(s))
    decreases |s|
  {
    hide RenderSentinels, Clean, SentinelAt;
    match SentinelAt(s)
    case None =>
      if s == [] {
        Nothing();
        EmptyIsClean();
      } else {
        SeenIsClean(s[1..]);
        RenderAppend(C(s[0]), Seen(s[1..]));
        assert s == [s[0]] + s[1..];
        CleanCons(C(s[0]), Seen(s[1..]));
      }
    case Some(key) =>
      SentinelIsPrefix(s);
      SeenIsClean(s[|key| + 2..]);
      RenderAppend(Slot(key), Seen(s[|key| + 2..]));
      CleanCons(Slot(key), Seen(s[|key| + 2..]));
  }

  lemma EmptyIsClean()
    ensures Clean([])
  {
  }

  lemma CleanCons(t: Tok<string>, rest: Copy)
    requires Clean(rest)
    requires if t.C? then SentinelAt(RenderSentinels([t] + rest)) == None else LettersOnly(t.s)
    ensures Clean([t] + rest)
  {
    var copy := [t] + rest;
    assert copy[1..] == rest;
    if t.C? { RunsAreSeen(copy); }
    hide LeftoverAt, SentinelAt, RenderSentinels;
    NoRunsStep(copy);
  }

  /** A copy is read as what it is exactly when its keys are letters and its own text spells out no sentinel. */
  lemma {:induction false} SeenExactlyWhenClean(copy: Copy)
    ensures Seen(RenderSentinels(copy)) == copy <==> Clean(copy)
  {
    SeenIsClean(RenderSentinels(copy));
    if Clean(copy) { CleanIsSeen(copy); }
  }

  lemma {:induction false} CleanIsSeen(copy: Copy)
    requires Clean(copy)
    ensures Seen(RenderSentinels(copy)) == copy
  {
    hide SentinelAt, RenderSentinels, Clean;
    if copy == [] {
      Nothing();
    } else {
      CleanTail(copy);
      CleanIsSeen(copy[1..]);
      RenderCons(copy);
      assert copy == [copy[0]] + copy[1..];
      if copy[0].C? {
        RunsAreSeen(copy);
        assert RenderSentinels(copy)[1..] == RenderSentinels(copy[1..]);
      } else {
        CleanKey(copy);
        SentinelAtSentinel(copy[0].s, RenderSentinels(copy[1..]));
      }
    }
  }

  lemma CleanKey(copy: Copy)
    requires Clean(copy) && copy != [] && copy[0].Slot?
    ensures LettersOnly(copy[0].s)
  {
    assert copy[0] in copy;
  }

  lemma SubstituteSeen(s: string, params: seq<string>, bold: bool)
    ensures Substitute(s, params, bold) == SubstituteCopy(Seen(s), params, bold)
  {
    SeenIsClean(s);
    SubstituteSeesTheCopy(Seen(s), params, bold);
  }

  /** Every parameter list compiles the copy as it was meant exactly when the copy is clean. */
  lemma CompiledAsMeantExactly(copy: Copy)
    ensures (forall params: seq<string>, bold: bool ::
               Substitute(RenderSentinels(copy), params, bold) == SubstituteCopy(copy, params, bold))
            <==> Clean(copy)
  {
    if Clean(copy) {
      forall params: seq<string>, bold: bool
        ensures Substitute(RenderSentinels(copy), params, bold) == SubstituteCopy(copy, params, bold)
      {
        SubstituteSeesTheCopy(copy, params, bold);
      }
    } else {
      var seen := Seen(RenderSentinels(copy));
      SeenIsClean(RenderSentinels(copy));
      var key := ToldApart(copy, seen);
      SubstituteSeen(RenderSentinels(copy), [Sentinel(key)], false);
    }
  }

  /** Different copies that render alike come apart once some value is passed. */
  lemma {:induction false} ToldApart(a: Copy, b: Copy) returns (key: string)
    requires a != b && RenderSentinels(a) == RenderSentinels(b)
    ensures SubstituteCopy(a, [Sentinel(key)], false) != SubstituteCopy(b, [Sentinel(key)], false)
    decreases |a|
  {
    RenderedLength(a);
    RenderedLength(b);
    RenderCons(a);
    RenderCons(b);
    hide RenderSentinels, SubstituteCopy;
    if a[0] == b[0] {
      assert a == [a[0]] + a[1..] && b == [b[0]] + b[1..];
      SamePrefix(if a[0].C? then [a[0].c] else Sentinel(a[0].s), RenderSentinels(a[1..]), RenderSentinels(b[1..]));
      key := ToldApart(a[1..], b[1..]);
      SubstituteCons(a, key);
      SubstituteCons(b, key);
      SamePrefix(Piece(a[0], [Sentinel(key)], false), SubstituteCopy(a[1..], [Sentinel(key)], false),
                 SubstituteCopy(b[1..], [Sentinel(key)], false));
    } else {
      assert RenderSentinels(a)[0] == RenderSentinels(b)[0];
      key := if a[0].Slot? then a[0].s else b[0].s;
      SubstituteCons(a, key);
      SubstituteCons(b, key);
      assert SubstituteCopy(a, [Sentinel(key)], false)[0] != SubstituteCopy(b, [Sentinel(key)], false)[0];
    }
  }

  lemma SamePrefix<T>(p: seq<T>, x: seq<T>, y: seq<T>)
    ensures p + x == p + y <==> x == y
  {
    assert (p + x)[|p|..] == x && (p + y)[|p|..] == y;
  }

  /** With one value passed, its own hole becomes the first position and every other token opens on its own text. */
  lemma SubstituteCons(copy: Copy, key: string)
    requires copy != []
    ensures SubstituteCopy(copy, [Sentinel(key)], false) ==
            Piece(copy[0], [Sentinel(key)], false) + SubstituteCopy(copy[1..], [Sentinel(key)], false)
    ensures var first := SubstituteCopy(copy, [Sentinel(key)], false)[0];
            first == if copy[0].C? then C(copy[0].c) else if copy[0].s == key then Slot(0) else C(OPEN)
  {
    hide Chars, SubstituteCopy, Sentinel, IndexOf;
    SubstituteFirst(copy, [Sentinel(key)], false);
    PieceFirst(copy[0], key);
  }

  lemma SubstituteFirst(copy: Copy, params: seq<string>, bold: bool)
    requires copy != []
    ensures SubstituteCopy(copy, params, bold) ==
            Piece(copy[0], params, bold) + SubstituteCopy(copy[1..], params, bold)
  {
  }

  lemma PieceFirst(t: Tok<string>, key: string)
    ensures var piece := Piece(t, [Sentinel(key)], false);
            piece != [] && piece[0] == if t.C? then C(t.c) else if t.s == key then Slot(0) else C(OPEN)
  {
    if t.Slot? {
      SentinelInjective(t.s, key);
      hide Sentinel;
      assert [Sentinel(key)][1..] == [];
      assert IndexOf([Sentinel(key)], Sentinel(t.s)) == if t.s == key then Some(0) else None;
      SentinelOpens(t.s);
    }
  }

  lemma SentinelInjective(a: string, b: string)
    ensures Sentinel(a) == Sentinel(b) <==> a == b
  {
    assert Sentinel(a)[1..|a| + 1] == a && Sentinel(b)[1..|b| + 1] == b;
    assert |Sentinel(a)| == |a| + 2 && |Sentinel(b)| == |b| + 2;
  }

  lemma SentinelOpens(key: string)
    ensures Chars<nat>(Sentinel(key)) != [] && Chars<nat>(Sentinel(key))[0] == C(OPEN)
  {
  }

  function RenderParams(params: seq<Copy>): seq<string> {
    seq(|params|, i requires 0 <= i < |params| => RenderSentinels(params[i]))
  }

  lemma {:induction false} IndexOfSpec(params: seq<string>, p: string)
    ensures match IndexOf(params, p)
            case None => p !in params
            case Some(i) => i < |params| && params[i] == p
  {
    if params != [] && params[0] != p {
      IndexOfSpec(params[1..], p);
    }
  }

  /** The reported values are exactly the copy's keys that no parameter carries alone. */
  lemma UnsuppliedExactly(copy: Copy, params: seq<Copy>, key: string)
    requires Clean(copy) && forall i :: 0 <= i < |params| ==> Clean(params[i])
    ensures key in Unsupplied(RenderSentinels(copy), RenderParams(params)) <==>
            Slot(key) in copy && [Slot(key)] !in params
  {
    SubstituteSeesTheCopy(copy, RenderParams(params), false);
    if Slot(key) in copy {
      assert LettersOnly(key);
      CarriedAlone(params, key);
    }
  }

  lemma CarriedAlone(params: seq<Copy>, key: string)
    requires forall i :: 0 <= i < |params| ==> Clean(params[i])
    requires LettersOnly(key)
    ensures match IndexOf(RenderParams(params), Sentinel(key))
            case None => [Slot(key)] !in params
            case Some(i) => i < |params| && params[i] == [Slot(key)]
  {
    IndexOfSpec(RenderParams(params), Sentinel(key));
    forall i | 0 <= i < |params| ensures RenderParams(params)[i] == Sentinel(key) <==> params[i] == [Slot(key)] {
      SentinelOnly(params[i], key);
    }
    forall i | 0 <= i < |params| && params[i] == [Slot(key)] ensures Sentinel(key) in RenderParams(params) {
      assert RenderParams(params)[i] == Sentinel(key);
    }
  }

  /** A digit or an underscore in a key hides it: the pattern neither replaces nor reports it. */
  lemma PatternSeesLettersOnly(key: string)
    requires key != [] && OPEN !in key && CLOSE !in key
    ensures Substitute(Sentinel(key), [Sentinel(key)], false) == [Slot(0)] <==> LettersOnly(key)
    ensures !LettersOnly(key) ==> Substitute(Sentinel(key), [Sentinel(key)], false) == Chars(Sentinel(key))
    ensures !LettersOnly(key) ==> Unsupplied(Sentinel(key), [Sentinel(key)]) == {}
  {
    if LettersOnly(key) {
      Replaced(key);
    } else {
      NotReplaced(key);
      assert Chars<nat>(Sentinel(key))[0] == C(OPEN);
    }
  }

  lemma Replaced(key: string)
    requires LettersOnly(key)
    ensures Substitute(Sentinel(key), [Sentinel(key)], false) == [Slot(0)]
  {
    var s := Sentinel(key);
    SentinelAtSentinel(key, []);
    assert s + [] == s;
    hide SentinelAt;
    assert Substitute(s[|key| + 2..], [s], false) == [];
  }

  lemma NotReplaced(key: string)
    requires key != [] && OPEN !in key && CLOSE !in key && !LettersOnly(key)
    ensures Substitute(Sentinel(key), [Sentinel(key)], false) == Chars(Sentinel(key))
    ensures Unsupplied(Sentinel(key), [Sentinel(key)]) == {}
  {
    hide SentinelAt, Substitute, Unsupplied, Chars, LettersOnly;
    var s := Sentinel(key);
    NoMatchAt(key);
    assert s[1..] == key + [CLOSE];
    NoOpenNoMatch(s[1..], [s]);
    KeepFirst(s, [s]);
  }

  lemma KeepFirst(s: string, params: seq<string>)
    requires s != [] && SentinelAt(s) == None
    requires Substitute(s[1..], params, false) == Chars(s[1..]) && Unsupplied(s[1..], params) == {}
    ensures Substitute(s, params, false) == Chars(s) && Unsupplied(s, params) == {}
  {
    hide SentinelAt, Substitute, Unsupplied;
    SubstituteStep(s, params, false);
    assert Chars<nat>(s) == [C(s[0])] + Chars(s[1..]);
  }

  lemma NoMatchAt(key: string)
    requires key != [] && CLOSE !in key && !LettersOnly(key)
    ensures SentinelAt(Sentinel(key)) == None
  {
    var t := Sentinel(key)[1..];
    assert t == key + [CLOSE];
    var n := LetterRun(t);
    assert forall i :: 0 <= i < |key| ==> t[i] == key[i];
    assert t[|key|] == CLOSE;
    assert n < |key| && Sentinel(key)[n + 1] == key[n] && key[n] in key;
  }

  lemma {:induction false} NoOpenNoMatch(s: string, params: seq<string>)
    requires OPEN !in s
    ensures Substitute(s, params, false) == Chars(s) && Unsupplied(s, params) == {}
  {
    if s != [] {
      assert s == [s[0]] + s[1..];
      NoOpenNoMatch(s[1..], params);
    }
  }

  // ---------- Stripping removes exactly the values not supplied ----------

  predicate Supplied(t: Tok<string>, params: seq<string>) {
    t.C? || IndexOf(params, Sentinel(t.s)).Some?
  }

  /** The copy without its unsupplied values. */
  function Supplies(copy: Copy, params: seq<string>): Copy {
    if copy == [] then []
    else (if Supplied(copy[0], params) then [copy[0]] else []) + Supplies(copy[1..], params)
  }

  lemma {:induction false} RunOfLetters<T>(key: string, rest: seq<Tok<T>>)
    requires forall i :: 0 <= i < |key| ==> IsLetter(key[i])
    ensures Run(Chars<T>(key) + [C(CLOSE)] + rest, Letters) == |key|
  {
    var ts := Chars<T>(key) + [C(CLOSE)] + rest;
    if key == [] {
      assert ts[0] == C(CLOSE);
    } else {
      assert ts[0] == C(key[0]) && ts[1..] == Chars(key[1..]) + [C(CLOSE)] + rest;
      RunOfLetters(key[1..], rest);
    }
  }

  lemma StripLeftover(key: string, rest: Template)
    requires LettersOnly(key)
    ensures StripSentinels(Chars(Sentinel(key)) + rest) == StripSentinels(rest)
  {
    var ts := Chars<nat>(Sentinel(key)) + rest;
    RunOfLetters<nat>(key, rest);
    assert ts[1..] == Chars(key) + [C(CLOSE)] + rest;
    assert ts[|key| + 1] == C(CLOSE);
    assert ts[|key| + 2..] == rest;
  }

  lemma StripPlain(t: Tok<nat>, rest: Template)
    requires LeftoverAt([t] + rest) == None
    ensures StripSentinels([t] + rest) == [t] + StripSentinels(rest)
  {
    assert ([t] + rest)[1..] == rest;
  }

  lemma Assoc<T>(a: seq<T>, b: seq<T>, c: seq<T>)
    ensures (a + b) + c == a + (b + c)
  {
  }

  /** What follows neither carries a run of letters on nor closes one. */
  predicate Breaks(rest: Template) {
    rest == [] || !(Is(rest[0], Letters) || rest[0] == C(CLOSE))
  }

  lemma PieceBreaks(t: Tok<string>, params: seq<string>, bold: bool, rest: Template)
    requires t.Slot?
    ensures Breaks(Piece(t, params, bold) + rest)
  {
    assert Chars<nat>(Sentinel(t.s))[0] == C(OPEN);
  }

  predicate Closes<T(==)>(ts: seq<Tok<T>>, n: nat) {
    n < |ts| && ts[n] == C(CLOSE)
  }

  lemma RunCons<T>(t: Tok<T>, tail: seq<Tok<T>>)
    ensures Run([t] + tail, Letters) == if Is(t, Letters) then 1 + Run(tail, Letters) else 0
    ensures Is(t, Letters) ==> forall n: nat :: Closes([t] + tail, n + 1) <==> Closes(tail, n)
    ensures !Is(t, Letters) ==> (Closes([t] + tail, 0) <==> t == C(CLOSE))
  {
    assert ([t] + tail)[1..] == tail;
  }

  /** A run of letters in the copy is the same run once its values are replaced. */
  lemma {:induction false} SubstitutedRun(copy: Copy, params: seq<string>, bold: bool, rest: Template)
    requires Breaks(rest)
    ensures var n, ts := Run(copy, Letters), SubstituteCopy(copy, params, bold) + rest;
            Run(ts, Letters) == n && (Closes(ts, n) <==> Closes(copy, n))
  {
    hide SubstituteCopy, InClass, Run, Closes, Piece, Breaks;
    if copy == [] {
      SubstituteNothing(params, bold, rest);
      BreaksRun(rest);
      NoRunInNothing();
    } else {
      var piece, tail := Piece(copy[0], params, bold), SubstituteCopy(copy[1..], params, bold) + rest;
      SubstituteFirst(copy, params, bold);
      Assoc(piece, SubstituteCopy(copy[1..], params, bold), rest);
      assert copy == [copy[0]] + copy[1..];
      RunCons(copy[0], copy[1..]);
      if copy[0].C? {
        PieceOfChar(copy[0], params, bold);
        RunCons(C(copy[0].c), tail);
        SameClass(copy[0].c);
        SubstitutedRun(copy[1..], params, bold, rest);
      } else {
        PieceBreaks(copy[0], params, bold, tail);
        BreaksRun(piece + tail);
      }
    }
  }

  lemma SubstituteNothing(params: seq<string>, bold: bool, rest: Template)
    ensures SubstituteCopy([], params, bold) + rest == rest
  {
  }

  lemma NoRunInNothing()
    ensures Run<string>([], Letters) == 0 && !Closes<string>([], 0)
  {
  }

  lemma PieceOfChar(t: Tok<string>, params: seq<string>, bold: bool)
    requires t.C?
    ensures Piece(t, params, bold) == [C(t.c)]
  {
  }

  lemma SameClass(c: char)
    ensures Is<nat>(C(c), Letters) == Is<string>(C(c), Letters)
  {
  }

  lemma BreaksRun(ts: Template)
    requires Breaks(ts)
    ensures Run(ts, Letters) == 0 && !Closes(ts, 0)
  {
  }

  lemma NoLeftover(copy: Copy, params: seq<string>, bold: bool, rest: Template)
    requires copy != [] && copy[0].C? && LeftoverAt(copy) == None && Breaks(rest)
    ensures LeftoverAt([C(copy[0].c)] + (SubstituteCopy(copy[1..], params, bold) + rest)) == None
  {
    var tail := SubstituteCopy(copy[1..], params, bold) + rest;
    assert ([C(copy[0].c)] + tail)[1..] == tail;
    SubstitutedRun(copy[1..], params, bold, rest);
    var n := Run(copy[1..], Letters);
    assert Closes(tail, n) <==> n + 1 < |copy| && copy[n + 1] == C(CLOSE);
  }

  lemma {:induction false} StripSubstituted(copy: Copy, params: seq<string>, bold: bool, rest: Template)
    requires Clean(copy) && Breaks(rest)
    ensures StripSentinels(SubstituteCopy(copy, params, bold) + rest) ==
            SubstituteCopy(Supplies(copy, params), params, bold) + StripSentinels(rest)
  {
    if copy == [] {
      assert SubstituteCopy(copy, params, bold) + rest == rest;
      assert [] + StripSentinels(rest) == StripSentinels(rest);
    } else {
      CleanTail(copy);
      StripSubstituted(copy[1..], params, bold, rest);
      var piece, tail := Piece(copy[0], params, bold), SubstituteCopy(copy[1..], params, bold);
      var kept := if Supplied(copy[0], params) then piece else [];
      SuppliesStep(copy, params, bold);
      if copy[0].C? { NoLeftover(copy, params, bold, rest); }
      StripPiece(copy[0], params, bold, tail + rest);
      assert SubstituteCopy(copy, params, bold) == piece + tail;
      hide SubstituteCopy, StripSentinels, Piece, Supplies, Clean, Supplied;
      Assoc(piece, tail, rest);
      Assoc(kept, SubstituteCopy(Supplies(copy[1..], params), params, bold), StripSentinels(rest));
    }
  }

  lemma SuppliesStep(copy: Copy, params: seq<string>, bold: bool)
    requires copy != []
    ensures SubstituteCopy(Supplies(copy, params), params, bold) ==
            (if Supplied(copy[0], params) then Piece(copy[0], params, bold) else [])
            + SubstituteCopy(Supplies(copy[1..], params), params, bold)
  {
    hide Piece, Supplied;
    var tail := Supplies(copy[1..], params);
    assert ([copy[0]] + tail)[1..] == tail && [] + tail == tail;
    assert [] + SubstituteCopy(tail, params, bold) == SubstituteCopy(tail, params, bold);
  }

  lemma StripPiece(t: Tok<string>, params: seq<string>, bold: bool, rest: Template)
    requires if t.C? then LeftoverAt([C(t.c)] + rest) == None else LettersOnly(t.s)
    ensures StripSentinels(Piece(t, params, bold) + rest) ==
            (if Supplied(t, params) then Piece(t, params, bold) else []) + StripSentinels(rest)
  {
    if t.C? {
      StripPlain(C(t.c), rest);
    } else {
      match IndexOf(params, Sentinel(t.s))
      case None =>
        StripLeftover(t.s, rest);
        assert [] + StripSentinels(rest) == StripSentinels(rest);
      case Some(i) =>
        if bold { StripBold(i, rest); } else { StripPlain(Slot(i), rest); }
    }
  }

  lemma StripBold(i: nat, rest: Template)
    ensures StripSentinels([C('*'), Slot(i), C('*')] + rest) == [C('*'), Slot(i), C('*')] + StripSentinels(rest)
  {
    hide StripSentinels;
    assert [C('*'), Slot(i), C('*')] + rest == [C('*')] + ([Slot(i)] + ([C('*')] + rest));
    StripPlain(C('*'), rest);
    StripPlain(Slot(i), [C('*')] + rest);
    StripPlain(C('*'), [Slot(i)] + ([C('*')] + rest));
  }

  // ---------- A sentinel spelt out in the copy's own text is taken for a value ----------

  function Literals(copy: Copy): nat {
    if copy == [] then 0 else (if copy[0].C? then 1 else 0) + Literals(copy[1..])
  }

  /** With no value passed only literal text is left. */
  lemma {:induction false} LiteralsLeft(copy: Copy, bold: bool)
    ensures |SubstituteCopy(Supplies(copy, []), [], bold)| == Literals(copy)
  {
    if copy != [] {
      LiteralsLeft(copy[1..], bold);
      SuppliesStep(copy, [], bold);
    }
  }

  lemma {:induction false} LiteralRun(copy: Copy, n: nat)
    requires n <= |copy| && forall i :: 0 <= i < n ==> copy[i].C?
    ensures Literals(copy) == n + Literals(copy[n..])
  {
    if n > 0 {
      LiteralRun(copy[1..], n - 1);
      assert copy[1..][n - 1..] == copy[n..];
    }
  }

  /** What the text is read as holds less literal text than the copy, unless the copy spells out no sentinel. */
  lemma {:induction false} SeenLoses(copy: Copy)
    requires LetterKeys(copy)
    ensures Literals(Seen(RenderSentinels(copy))) <= Literals(copy)
    ensures Literals(Seen(RenderSentinels(copy))) == Literals(copy) ==> NoRuns(copy)
    decreases |copy|
  {
    hide SentinelAt, RenderSentinels, LeftoverAt, LetterKeys;
    if copy == [] {
      Nothing();
    } else {
      KeysOf(copy);
      RenderCons(copy);
      NoRunsStep(copy);
      hide NoRuns;
      var s, seen := RenderSentinels(copy), Seen(RenderSentinels(copy));
      if copy[0].Slot? {
        SentinelAtSentinel(copy[0].s, RenderSentinels(copy[1..]));
        SeenLoses(copy[1..]);
        NoLeftoverInSlot(copy);
        assert seen[1..] == Seen(RenderSentinels(copy[1..]));
      } else {
        RunsAreSeen(copy);
        match LeftoverAt(copy)
        case None =>
          SeenLoses(copy[1..]);
          assert s[1..] == RenderSentinels(copy[1..]);
          assert seen[1..] == Seen(RenderSentinels(copy[1..]));
        case Some(n) =>
          LeftoverIsLiteral(copy, n);
          LiteralRun(copy, n + 2);
          SeenLoses(copy[n + 2..]);
          assert seen[1..] == Seen(RenderSentinels(copy[n + 2..]));
      }
    }
  }

  lemma KeysOf(copy: Copy)
    requires LetterKeys(copy) && copy != []
    ensures copy[0].Slot? ==> LettersOnly(copy[0].s)
    ensures forall i :: 0 <= i <= |copy| ==> LetterKeys(copy[i..])
  {
    assert copy[0] in copy;
    forall i, t | 0 <= i <= |copy| && t in copy[i..] ensures t in copy {
    }
  }

  lemma NoLeftoverInSlot(copy: Copy)
    requires copy != [] && copy[0].Slot?
    ensures LeftoverAt(copy) == None
  {
  }

  lemma LeftoverIsLiteral(copy: Copy, n: nat)
    requires LeftoverAt(copy) == Some(n)
    ensures n + 2 <= |copy| && forall i :: 0 <= i < n + 2 ==> copy[i].C?
  {
    forall i | 0 < i <= n ensures copy[i].C? {
      assert Is(copy[1..][i - 1], Letters);
    }
  }

  /** Stripping removes the values not supplied and nothing else, under every parameter list, exactly when
      the copy's own text spells out no sentinel. */
  lemma StripsAsMeantExactly(copy: Copy)
    requires LetterKeys(copy)
    ensures (forall params: seq<string>, bold: bool ::
               StripSentinels(Substitute(RenderSentinels(copy), params, bold))
               == SubstituteCopy(Supplies(copy, params), params, bold))
            <==> NoRuns(copy)
  {
    var s := RenderSentinels(copy);
    if NoRuns(copy) {
      forall params: seq<string>, bold: bool
        ensures StripSentinels(Substitute(s, params, bold)) == SubstituteCopy(Supplies(copy, params), params, bold)
      {
        SubstituteSeesTheCopy(copy, params, bold);
        StripsWhole(copy, params, bold);
      }
    } else {
      SeenIsClean(s);
      SubstituteSeen(s, [], false);
      StripsWhole(Seen(s), [], false);
      LiteralsLeft(Seen(s), false);
      LiteralsLeft(copy, false);
      SeenLoses(copy);
      var none: seq<string> := [];
      assert StripSentinels(Substitute(s, none, false)) != SubstituteCopy(Supplies(copy, none), none, false);
    }
  }

  lemma StripsWhole(copy: Copy, params: seq<string>, bold: bool)
    requires Clean(copy)
    ensures StripSentinels(SubstituteCopy(copy, params, bold)) ==
            SubstituteCopy(Supplies(copy, params), params, bold)
  {
    StripSubstituted(copy, params, bold, []);
    hide StripSentinels, SubstituteCopy, Supplies;
    StripsNothing();
    assert SubstituteCopy(copy, params, bold) + [] == SubstituteCopy(copy, params, bold);
    assert SubstituteCopy(Supplies(copy, params), params, bold) + [] ==
           SubstituteCopy(Supplies(copy, params), params, bold);
  }

  lemma StripsNothing()
    ensures StripSentinels<nat>([]) == []
  {
  }

  /** A sentinel spelt out by the copy's own text is reported as a value not supplied. */
  lemma SpeltOutIsTaken(before: Copy, key: string, after: Copy, params: seq<string>)
    requires LetterKeys(before + Chars(Sentinel(key)) + after) && LettersOnly(key)
    requires IndexOf(params, Sentinel(key)) == None
    ensures key in Unsupplied(RenderSentinels(before + Chars(Sentinel(key)) + after), params)
  {
    var copy := before + Chars(Sentinel(key)) + after;
    SpeltOutIsSeen(before, key, after);
    SeenIsClean(RenderSentinels(copy));
    SubstituteSeesTheCopy(Seen(RenderSentinels(copy)), params, false);
  }

  lemma {:induction false} SpeltOutIsSeen(before: Copy, key: string, after: Copy)
    requires LetterKeys(before + Chars(Sentinel(key)) + after) && LettersOnly(key)
    ensures Slot(key) in Seen(RenderSentinels(before + Chars(Sentinel(key)) + after))
    decreases |before|
  {
    hide SentinelAt, RenderSentinels, LeftoverAt, LetterKeys;
    var copy := before + Chars(Sentinel(key)) + after;
    var s := RenderSentinels(copy);
    KeysOf(copy);
    RenderCons(copy);
    if before == [] {
      SpeltOutRenders(key, after);
      assert copy == Chars(Sentinel(key)) + after;
      SentinelAtSentinel(key, RenderSentinels(after));
    } else {
      assert copy[1..] == before[1..] + Chars(Sentinel(key)) + after;
      if copy[0].Slot? {
        SentinelAtSentinel(copy[0].s, RenderSentinels(copy[1..]));
        SpeltOutIsSeen(before[1..], key, after);
      } else {
        RunsAreSeen(copy);
        match LeftoverAt(copy)
        case None =>
          assert s[1..] == RenderSentinels(copy[1..]);
          SpeltOutIsSeen(before[1..], key, after);
        case Some(n) =>
          EndsInside(before, key, after, n);
          assert copy[n + 2..] == before[n + 2..] + Chars(Sentinel(key)) + after;
          SpeltOutIsSeen(before[n + 2..], key, after);
      }
    }
  }

  lemma SpeltOutRenders(key: string, after: Copy)
    ensures RenderSentinels(Chars(Sentinel(key)) + after) == Sentinel(key) + RenderSentinels(after)
  {
    var copy := Chars<string>(Sentinel(key)) + after;
    RenderLiteral(copy, |key| + 2);
    assert copy[|key| + 2..] == after;
    assert KeyOf(copy[..|key| + 2]) == Sentinel(key);
  }

  /** A run that starts earlier is over before the sentinel opens. */
  lemma EndsInside(before: Copy, key: string, after: Copy, n: nat)
    requires before != [] && LeftoverAt(before + Chars(Sentinel(key)) + after) == Some(n)
    ensures n + 2 <= |before|
  {
    var copy := before + Chars(Sentinel(key)) + after;
    assert copy[|before|] == Chars<string>(Sentinel(key))[0] == C(OPEN);
    assert copy[1..][|before| - 1] == C(OPEN) && !IsLetter(OPEN);
  }

  // ---------- Tidying does not look inside holes ----------

  function MapSlots<A, B>(f: A -> B, ts: seq<Tok<A>>): (r: seq<Tok<B>>)
    ensures |r| == |ts|
  {
    seq(|ts|, i requires 0 <= i < |ts| => if ts[i].C? then C(ts[i].c) else Slot(f(ts[i].s)))
  }

  lemma MapDrop<A, B>(f: A -> B, ts: seq<Tok<A>>, n: nat)
    requires n <= |ts|
    ensures MapSlots(f, ts)[n..] == MapSlots(f, ts[n..])
    ensures MapSlots(f, ts)[..n] == MapSlots(f, ts[..n])
  {
  }

  lemma {:induction false} RunMap<A, B>(f: A -> B, ts: seq<Tok<A>>, p: Class)
    ensures Run(MapSlots(f, ts), p) == Run(ts, p)
  {
    if ts != [] {
      MapDrop(f, ts, 1);
      RunMap(f, ts[1..], p);
    }
  }

  lemma MapCons<A, B>(f: A -> B, t: Tok<A>, ts: seq<Tok<A>>)
    ensures MapSlots(f, [t] + ts) == MapSlots(f, [t]) + MapSlots(f, ts)
  {
  }

  lemma MapTwo<A, B>(f: A -> B, ts: seq<Tok<A>>)
    ensures MapSlots(f, [C('\n'), C('\n')] + ts) == [C('\n'), C('\n')] + MapSlots(f, ts)
  {
  }

  lemma {:induction false} CollapseMap<A, B>(f: A -> B, ts: seq<Tok<A>>)
    ensures CollapseBlanks(MapSlots(f, ts)) == MapSlots(f, CollapseBlanks(ts))
    decreases |ts|
  {
    hide CollapseBlanks, Run, InClass;
    if ts == [] {
      CollapseNothing<A>();
      CollapseNothing<B>();
    } else {
      CollapseStep(ts);
      CollapseStep(MapSlots(f, ts));
      RunMap(f, ts, Blanks);
      var n := Run(ts, Blanks);
      var k := if n >= 2 then n else 1;
      MapDrop(f, ts, k);
      CollapseMap(f, ts[k..]);
      MapCons(f, if n >= 2 then C(' ') else ts[0], CollapseBlanks(ts[k..]));
    }
  }

  lemma {:induction false} PunctuationMap<A, B>(f: A -> B, ts: seq<Tok<A>>)
    ensures DropBlanksBeforePunctuation(MapSlots(f, ts)) == MapSlots(f, DropBlanksBeforePunctuation(ts))
    decreases |ts|
  {
    hide DropBlanksBeforePunctuation, Run, InClass;
    if ts == [] {
      PunctuationNothing<A>();
      PunctuationNothing<B>();
    } else {
      PunctuationStep(ts);
      PunctuationStep(MapSlots(f, ts));
      RunMap(f, ts, Blanks);
      var n := Run(ts, Blanks);
      var k := if n > 0 && n < |ts| && Is(ts[n], Punctuation) then n else 1;
      MapDrop(f, ts, k);
      PunctuationMap(f, ts[k..]);
      MapCons(f, ts[0], DropBlanksBeforePunctuation(ts[k..]));
    }
  }

  lemma {:induction false} NewlinesMap<A, B>(f: A -> B, ts: seq<Tok<A>>)
    ensures CapNewlines(MapSlots(f, ts)) == MapSlots(f, CapNewlines(ts))
    decreases |ts|
  {
    hide CapNewlines, Run, InClass;
    if ts == [] {
      NewlinesNothing<A>();
      NewlinesNothing<B>();
    } else {
      NewlinesStep(ts);
      NewlinesStep(MapSlots(f, ts));
      RunMap(f, ts, Newlines);
      var n := Run(ts, Newlines);
      var k := if n >= 3 then n else 1;
      MapDrop(f, ts, k);
      NewlinesMap(f, ts[k..]);
      var rest := CapNewlines(ts[k..]);
      MapCons(f, ts[0], rest);
      MapTwo(f, rest);
    }
  }

  lemma {:induction false} LineEndsMap<A, B>(f: A -> B, ts: seq<Tok<A>>)
    ensures TrimLineEnds(MapSlots(f, ts)) == MapSlots(f, TrimLineEnds(ts))
  {
    if ts != [] {
      MapDrop(f, ts, 1);
      LineEndsMap(f, ts[1..]);
      MapCons(f, ts[0], TrimLineEnds(ts[1..]));
    }
  }

  lemma {:induction false} TrimBackMap<A, B>(f: A -> B, ts: seq<Tok<A>>)
    ensures TrimBack(MapSlots(f, ts)) == MapSlots(f, TrimBack(ts))
  {
    if ts != [] {
      MapDrop(f, ts, |ts| - 1);
      TrimBackMap(f, ts[..|ts| - 1]);
    }
  }

  lemma PassMap<A, B>(f: A -> B, n: nat, ts: seq<Tok<A>>)
    ensures Pass(n, MapSlots(f, ts)) == MapSlots(f, Pass(n, ts))
  {
    hide CollapseBlanks, DropBlanksBeforePunctuation, CapNewlines, TrimLineEnds, TrimBack, MapSlots, Run;
    match n
    case 1 => CollapseMap(f, ts);
    case 2 => PunctuationMap(f, ts);
    case 3 => NewlinesMap(f, ts);
    case 4 => LineEndsMap(f, ts);
    case 5 => RunMap(f, ts, Spaces); MapDrop(f, ts, Run(ts, Spaces));
    case _ => TrimBackMap(f, ts);
  }

  lemma {:induction false} PassesMap<A, B>(f: A -> B, n: nat, ts: seq<Tok<A>>)
    ensures Passes(n, MapSlots(f, ts)) == MapSlots(f, Passes(n, ts))
  {
    hide Pass, MapSlots;
    if n > 0 {
      PassesMap(f, n - 1, ts);
      PassMap(f, n, Passes(n - 1, ts));
    }
  }

  /** Tidying does not look at what stands in a hole. */
  lemma TidySpaceMap<A, B>(f: A -> B, ts: seq<Tok<A>>)
    ensures TidySpace(MapSlots(f, ts)) == MapSlots(f, TidySpace(ts))
  {
    hide Passes, MapSlots;
    PassesMap(f, PASSES, ts);
  }

  // ---------- Compilation preserves meaning ----------

  /** Every value of a body stands in bold. */
  function Bolden(copy: Copy): Copy {
    if copy == [] then []
    else (if copy[0].C? then [copy[0]] else [C('*'), copy[0], C('*')]) + Bolden(copy[1..])
  }

  /** The message as it is meant to read: a bold heading, a blank line, and the body. */
  function Marked(heading: bool, subject: Copy, body: Copy): Copy {
    if heading then [C('*')] + subject + [C('*')] + Chars("\n\n") + Bolden(body) else Bolden(body)
  }

  ghost predicate AllSupplied(copy: Copy, params: seq<string>) {
    forall t :: t in copy ==> Supplied(t, params)
  }

  function Position(params: seq<string>): string -> nat {
    (key: string) => match IndexOf(params, Sentinel(key)) case None => 0 case Some(i) => i
  }

  lemma {:induction false} SuppliesAreSupplied(copy: Copy, params: seq<string>)
    ensures AllSupplied(Supplies(copy, params), params)
    ensures forall t :: t in Supplies(copy, params) ==> t in copy
    ensures AllSupplied(copy, params) ==> Supplies(copy, params) == copy
  {
    if copy != [] {
      SuppliesAreSupplied(copy[1..], params);
      assert copy == [copy[0]] + copy[1..];
    }
  }

  lemma MapAppend<A, B>(f: A -> B, a: seq<Tok<A>>, b: seq<Tok<A>>)
    ensures MapSlots(f, a + b) == MapSlots(f, a) + MapSlots(f, b)
  {
  }

  lemma {:induction false} SubstituteIsMap(copy: Copy, params: seq<string>, bold: bool)
    requires AllSupplied(copy, params)
    ensures SubstituteCopy(copy, params, bold) == MapSlots(Position(params), if bold then Bolden(copy) else copy)
  {
    if copy != [] {
      var f := Position(params);
      assert copy[0] in copy;
      SubstituteIsMap(copy[1..], params, bold);
      PieceIsMap(copy[0], params, bold);
      if bold {
        MapAppend(f, if copy[0].C? then [copy[0]] else [C('*'), copy[0], C('*')], Bolden(copy[1..]));
      } else {
        MapAppend(f, [copy[0]], copy[1..]);
        assert [copy[0]] + copy[1..] == copy;
      }
    }
  }

  lemma PieceIsMap(t: Tok<string>, params: seq<string>, bold: bool)
    requires Supplied(t, params)
    ensures Piece(t, params, bold) ==
            MapSlots(Position(params), if bold && t.Slot? then [C('*'), t, C('*')] else [t])
  {
  }

  /** The compiled body is the marked message, tidied, with keys turned into positions. */
  lemma CompiledIsTidyMarked(subject: Copy, body: Copy, params: seq<string>)
    requires Clean(subject) && Clean(body)
    ensures CompileBody(Text(RenderSentinels(subject), RenderSentinels(body)), params) ==
            MapSlots(Position(params),
                     Respaced(Marked(subject != [], Supplies(subject, params), Supplies(body, params))))
  {
    var f, s, b := Position(params), Supplies(subject, params), Supplies(body, params);
    RenderedLength(subject);
    SubstituteSeesTheCopy(subject, params, false);
    SubstituteSeesTheCopy(body, params, true);
    SuppliesAreSupplied(subject, params);
    SuppliesAreSupplied(body, params);
    SubstituteIsMap(s, params, false);
    SubstituteIsMap(b, params, true);
    StrippedParts(subject, body, params);
    TidySpaceMap(f, Marked(subject != [], s, b));
    TidyIsRespaced(Marked(subject != [], s, b));
    MarkedMap(f, subject != [], s, b);
  }

  lemma MarkedMap<B>(f: string -> B, heading: bool, s: Copy, b: Copy)
    ensures MapSlots(f, Marked(heading, s, b)) ==
            if heading then [C('*')] + MapSlots(f, s) + [C('*')] + Chars("\n\n") + MapSlots(f, Bolden(b))
            else MapSlots(f, Bolden(b))
  {
    hide Bolden;
  }

  lemma StrippedParts(subject: Copy, body: Copy, params: seq<string>)
    requires Clean(subject) && Clean(body)
    ensures var s := SubstituteCopy(Supplies(subject, params), params, false);
            var b := SubstituteCopy(Supplies(body, params), params, true);
            var body' := SubstituteCopy(body, params, true);
            && StripSentinels([C('*')] + SubstituteCopy(subject, params, false) + [C('*')] + Chars("\n\n") + body')
               == [C('*')] + s + [C('*')] + Chars("\n\n") + b
            && StripSentinels(body') == b
  {
    var heading, body' := SubstituteCopy(subject, params, false), SubstituteCopy(body, params, true);
    var s := SubstituteCopy(Supplies(subject, params), params, false);
    var b := SubstituteCopy(Supplies(body, params), params, true);
    StripSubstituted(body, params, true, []);
    assert body' + [] == body' && b + StripSentinels<nat>([]) == b;
    StripSubstituted(subject, params, false, Separated(body'));
    hide StripSentinels, SubstituteCopy, Supplies, Separated;
    Regroup(heading, body');
    Regroup(s, b);
    StripSeparated(body');
    StripPlain(C('*'), heading + Separated(body'));
  }

  /** The end of a heading, and what follows it. */
  function Separated<T>(rest: seq<Tok<T>>): seq<Tok<T>> {
    [C('*')] + ([C('\n')] + ([C('\n')] + rest))
  }

  lemma StripSeparated(rest: Template)
    ensures StripSentinels(Separated(rest)) == Separated(StripSentinels(rest))
  {
    StripPlain(C('\n'), rest);
    StripPlain(C('\n'), [C('\n')] + rest);
    StripPlain(C('*'), [C('\n')] + ([C('\n')] + rest));
  }

  lemma Regroup<T>(heading: seq<Tok<T>>, rest: seq<Tok<T>>)
    ensures [C('*')] + heading + [C('*')] + Chars("\n\n") + rest == [C('*')] + (heading + Separated(rest))
  {
    assert Chars<T>("\n\n") == [C('\n'), C('\n')];
  }

  lemma {:induction false} FillMap<A, B>(f: A -> B, ts: seq<Tok<A>>, v: B -> string, w: A -> string)
    requires forall t :: t in ts && t.Slot? ==> v(f(t.s)) == w(t.s)
    ensures Fill(MapSlots(f, ts), v) == Fill(ts, w)
  {
    if ts != [] {
      assert ts[0] in ts;
      MapDrop(f, ts, 1);
      FillMap(f, ts[1..], v, w);
    }
  }

  function RenderedValues(params: seq<Copy>, context: string -> string): seq<string> {
    seq(|params|, i requires 0 <= i < |params| => Fill(params[i], context))
  }

  /** What the recipient reads: `{{n}}` replaced by the n-th parameter. */
  function FillTemplate(t: Template, values: seq<string>): string {
    Fill(t, (i: nat) => if i < |values| then values[i] else "")
  }

  lemma {:induction false} CollapseHole<T>(ts: seq<Tok<T>>, x: T)
    requires Slot(x) in CollapseBlanks(ts)
    ensures Slot(x) in ts
    decreases |ts|
  {
    CollapseStep(ts);
    hide CollapseBlanks, Run;
    var n := Run(ts, Blanks);
    if n >= 2 {
      CollapseHole(ts[n..], x);
    } else if ts[0] != Slot(x) {
      CollapseHole(ts[1..], x);
    }
  }

  lemma {:induction false} PunctuationHole<T>(ts: seq<Tok<T>>, x: T)
    requires Slot(x) in DropBlanksBeforePunctuation(ts)
    ensures Slot(x) in ts
    decreases |ts|
  {
    PunctuationStep(ts);
    hide DropBlanksBeforePunctuation, Run;
    var n := Run(ts, Blanks);
    if n > 0 && n < |ts| && Is(ts[n], Punctuation) {
      PunctuationHole(ts[n..], x);
    } else if ts[0] != Slot(x) {
      PunctuationHole(ts[1..], x);
    }
  }

  lemma {:induction false} NewlinesHole<T>(ts: seq<Tok<T>>, x: T)
    requires Slot(x) in CapNewlines(ts)
    ensures Slot(x) in ts
    decreases |ts|
  {
    NewlinesStep(ts);
    hide CapNewlines, Run;
    var n := Run(ts, Newlines);
    if n >= 3 {
      NewlinesHole(ts[n..], x);
    } else if ts[0] != Slot(x) {
      NewlinesHole(ts[1..], x);
    }
  }

  lemma {:induction false} LineEndsHole<T>(ts: seq<Tok<T>>, x: T)
    requires Slot(x) in TrimLineEnds(ts)
    ensures Slot(x) in ts
  {
    if ts[0] != Slot(x) { LineEndsHole(ts[1..], x); }
  }

  lemma {:induction false} TrimBackHole<T>(ts: seq<Tok<T>>, x: T)
    requires Slot(x) in TrimBack(ts)
    ensures Slot(x) in ts
  {
    if ts != [] && Is(ts[|ts| - 1], Spaces) { TrimBackHole(ts[..|ts| - 1], x); }
  }

  lemma PassHole<T>(n: nat, ts: seq<Tok<T>>, x: T)
    requires Slot(x) in Pass(n, ts)
    ensures Slot(x) in ts
  {
    hide CollapseBlanks, DropBlanksBeforePunctuation, CapNewlines, TrimLineEnds, TrimBack, Run;
    match n
    case 1 => CollapseHole(ts, x);
    case 2 => PunctuationHole(ts, x);
    case 3 => NewlinesHole(ts, x);
    case 4 => LineEndsHole(ts, x);
    case 5 =>
    case _ => TrimBackHole(ts, x);
  }

  /** Tidying makes no holes. */
  lemma {:induction false} TidyHole<T>(n: nat, ts: seq<Tok<T>>, x: T)
    requires Slot(x) in Passes(n, ts)
    ensures Slot(x) in ts
  {
    hide Pass;
    if n > 0 {
      PassHole(n, Passes(n - 1, ts), x);
      TidyHole(n - 1, ts, x);
    }
  }

  lemma {:induction false} MarkedHoles(heading: bool, s: Copy, b: Copy)
    ensures forall t :: t in Marked(heading, s, b) && t.Slot? ==> t in s || t in b
  {
    BoldenHoles(b);
  }

  lemma {:induction false} BoldenHoles(b: Copy)
    ensures forall t :: t in Bolden(b) && t.Slot? ==> t in b
  {
    if b != [] { BoldenHoles(b[1..]); }
  }

  /** Filling the compiled template with the rendered parameters says exactly what the marked copy,
      without the values no parameter carries, says when rendered directly and tidied. */
  lemma CompilationPreservesMeaning(subject: Copy, body: Copy, params: seq<Copy>, context: string -> string)
    requires Clean(subject) && Clean(body) && forall i :: 0 <= i < |params| ==> Clean(params[i])
    ensures var ps := RenderParams(params);
            var template := CompileBody(Text(RenderSentinels(subject), RenderSentinels(body)), ps);
            var message := Marked(subject != [], Supplies(subject, ps), Supplies(body, ps));
            FillTemplate(template, RenderedValues(params, context)) == Fill(Respaced(message), context)
  {
    var ps, values := RenderParams(params), RenderedValues(params, context);
    var s, b := Supplies(subject, ps), Supplies(body, ps);
    var message := Marked(subject != [], s, b);
    CompiledIsTidyMarked(subject, body, ps);
    SuppliesAreSupplied(subject, ps);
    SuppliesAreSupplied(body, ps);
    MarkedHoles(subject != [], s, b);
    TidyIsRespaced(message);
    forall t | t in Respaced(message) && t.Slot?
      ensures LettersOnly(t.s) && Supplied(t, ps)
    {
      TidyHole(PASSES, message, t.s);
    }
    hide CompileBody, Respaced, Marked, Supplies, RenderSentinels, Supplied, LettersOnly;
    MeaningOfHoles(Respaced(message), params, context);
  }

  /** The same for any texts at all: the template says what its subject, body and parameters are read as. */
  lemma AnyTextMeansWhatItIsReadAs(text: Text, params: seq<string>, context: string -> string)
    ensures var seen := seq(|params|, i requires 0 <= i < |params| => Seen(params[i]));
            var message := Marked(text.subject != [], Supplies(Seen(text.subject), params),
                                  Supplies(Seen(text.body), params));
            FillTemplate(CompileBody(text, params), RenderedValues(seen, context)) == Fill(Respaced(message), context)
  {
    hide CompileBody, Respaced, Marked, Supplies, RenderSentinels, RenderedValues, Clean, Seen;
    var seen := seq(|params|, i requires 0 <= i < |params| => Seen(params[i]));
    SeenIsClean(text.subject);
    SeenIsClean(text.body);
    forall i | 0 <= i < |params| ensures Clean(seen[i]) && RenderSentinels(seen[i]) == params[i] {
      SeenIsClean(params[i]);
    }
    assert RenderParams(seen) == params;
    RenderedLength(Seen(text.subject));
    RenderedLength(Seen(text.body));
    CompilationPreservesMeaning(Seen(text.subject), Seen(text.body), seen, context);
    assert text == Text(RenderSentinels(Seen(text.subject)), RenderSentinels(Seen(text.body)));
  }

  lemma MeaningOfHoles(message: Copy, params: seq<Copy>, context: string -> string)
    requires forall i :: 0 <= i < |params| ==> Clean(params[i])
    requires forall t :: t in message && t.Slot? ==> LettersOnly(t.s) && Supplied(t, RenderParams(params))
    ensures FillTemplate(MapSlots(Position(RenderParams(params)), message), RenderedValues(params, context))
            == Fill(message, context)
  {
    var ps, values := RenderParams(params), RenderedValues(params, context);
    var v := (i: nat) => if i < |values| then values[i] else "";
    forall t | t in message && t.Slot? ensures v(Position(ps)(t.s)) == context(t.s) {
      CarriedAlone(params, t.s);
      FillOne(t.s, context);
    }
    FillMap(Position(ps), message, v, context);
  }

  lemma FillOne(key: string, context: string -> string)
    ensures Fill([Slot(key)], context) == context(key)
  {
    assert [Slot(key)][1..] == [];
  }

  /** When every value is supplied and the marked copy has no stray white space, nothing changes. */
  lemma FullySuppliedCopyIsKept(subject: Copy, body: Copy, params: seq<Copy>, context: string -> string)
    requires Clean(subject) && Clean(body) && forall i :: 0 <= i < |params| ==> Clean(params[i])
    requires UnsuppliedIn(Text(RenderSentinels(subject), RenderSentinels(body)), RenderParams(params)) == {}
    requires Respaced(Marked(subject != [], subject, body)) == Marked(subject != [], subject, body)
    ensures FillTemplate(CompileBody(Text(RenderSentinels(subject), RenderSentinels(body)), RenderParams(params)),
                         RenderedValues(params, context))
            == Fill(Marked(subject != [], subject, body), context)
  {
    var ps := RenderParams(params);
    CompilationPreservesMeaning(subject, body, params, context);
    NothingUnsupplied(subject, ps);
    NothingUnsupplied(body, ps);
  }

  lemma NothingUnsupplied(copy: Copy, params: seq<string>)
    requires Clean(copy) && Unsupplied(RenderSentinels(copy), params) == {}
    ensures Supplies(copy, params) == copy
  {
    SubstituteSeesTheCopy(copy, params, false);
    forall t | t in copy ensures Supplied(t, params) {
      if t.Slot? { assert t.s !in Unsupplied(RenderSentinels(copy), params); }
    }
    SuppliesAreSupplied(copy, params);
  }

  // ---------- The bodies of a row ----------

  lemma {:induction false} WordsMap<A, B>(f: A -> B, ts: seq<Tok<A>>)
    ensures Words(MapSlots(f, ts)) == MapSlots(f, Words(ts))
  {
    if ts != [] {
      MapDrop(f, ts, 1);
      WordsMap(f, ts[1..]);
      if Solid(ts[0]) { MapCons(f, ts[0], Words(ts[1..])); }
    }
  }

  /** What a text says to its reader: a bold heading, a blank line and the body, without the values that no
      parameter carries. */
  function Meant(text: Text, params: seq<string>): Copy {
    Marked(text.subject != [], Supplies(Seen(text.subject), params), Supplies(Seen(text.body), params))
  }

  /** A compiled body has the words of what was meant, all of them and in order, and no stray white space. */
  ghost predicate WellSet(template: Template, text: Text, params: seq<string>) {
    && Words(template) == MapSlots(Position(params), Words(Meant(text, params)))
    && Neat(template) && (template != [] ==> Solid(template[0]) && Solid(template[|template| - 1]))
  }

  lemma CompiledIsWellSet(text: Text, params: seq<string>)
    ensures WellSet(CompileBody(text, params), text, params)
  {
    hide Marked, Supplies, RenderSentinels, Clean, Seen, Words, Respaced, TidySpace, MapSlots, Position, Neat, Solid;
    SeenIsClean(text.subject);
    SeenIsClean(text.body);
    var subject, body, message := Seen(text.subject), Seen(text.body), Meant(text, params);
    RenderedLength(subject);
    assert text == Text(RenderSentinels(subject), RenderSentinels(body));
    CompiledIsTidyMarked(subject, body, params);
    hide CompileBody;
    TidyIsRespaced(message);
    TidyKeepsWords(message);
    WordsMap(Position(params), Respaced(message));
    TidySpaceMap(Position(params), message);
    TidyIsNeat(MapSlots(Position(params), message));
  }

  /** The bodies of one situation, language by language, and the values the send does not pass. */
  method CompileRow(texts: seq<Text>, params: seq<string>) returns (bodies: seq<Template>, unsupplied: set<string>)
    ensures |bodies| == |texts| && forall i :: 0 <= i < |texts| ==> bodies[i] == CompileBody(texts[i], params)
    ensures forall i :: 0 <= i < |texts| ==> WellSet(bodies[i], texts[i], params)
    ensures forall k :: k in unsupplied <==> exists i :: 0 <= i < |texts| && k in UnsuppliedIn(texts[i], params)
  {
    hide UnsuppliedIn, CompileBody, WellSet;
    bodies, unsupplied := [], {};
    for i := 0 to |texts|
      invariant |bodies| == i && forall j :: 0 <= j < i ==> bodies[j] == CompileBody(texts[j], params)
      invariant forall j :: 0 <= j < i ==> WellSet(bodies[j], texts[j], params)
      invariant forall k :: k in unsupplied <==> exists j :: 0 <= j < i && k in UnsuppliedIn(texts[j], params)
    {
      var text := texts[i];
      unsupplied := unsupplied + UnsuppliedIn(text, params);
      CompiledIsWellSet(text, params);
      bodies := bodies + [CompileBody(text, params)];
    }
  }
}
