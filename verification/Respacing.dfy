/** What tidying comes to, said place by place: the text's own tokens with tidied gaps between them. */
module Respacing {
  import opened JsText
  import opened TextTidy

  predicate Solid<T>(t: Tok<T>) {
    t.Slot? || !IsSpace(t.c)
  }

  predicate IsBlank<T(==)>(t: Tok<T>) {
    t == C(' ') || t == C('\t')
  }

  predicate EndsClause<T(==)>(t: Tok<T>) {
    t == C('.') || t == C(',') || t == C(';') || t == C(':') || t == C('!') || t == C('?')
  }

  /** What is left of token `i` of the white space `w` between two words, the second of which starts with `next`. */
  function Left<T(==)>(w: seq<Tok<T>>, next: Tok<T>, i: nat): seq<Tok<T>>
    requires i < |w|
  {
    if w[i] == C('\n') then (if i >= 2 && w[i - 1] == C('\n') && w[i - 2] == C('\n') then [] else [w[i]])
    else if C('\n') in w[i..] then []
    else if !IsBlank(w[i]) then [w[i]]
    else if i > 0 && IsBlank(w[i - 1]) then []
    else if EndsClause(next) && forall j :: i <= j < |w| ==> IsBlank(w[j]) then []
    else if i + 1 < |w| && IsBlank(w[i + 1]) then [C(' ')]
    else [w[i]]
  }

  /** What is left of the gap from token `i` on. */
  function Gap<T(==)>(w: seq<Tok<T>>, next: Tok<T>, i: nat): seq<Tok<T>>
    requires i <= |w|
    decreases |w| - i
  {
    if i == |w| then [] else Left(w, next, i) + Gap(w, next, i + 1)
  }

  function FirstSolid<T>(ts: seq<Tok<T>>): (n: nat)
    ensures n <= |ts| && forall i :: 0 <= i < n ==> !Solid(ts[i])
    ensures n < |ts| ==> Solid(ts[n])
  {
    if ts == [] || Solid(ts[0]) then 0 else 1 + FirstSolid(ts[1..])
  }

  /** What follows a word: nothing of the white space at the end, gaps in between tidied. */
  function RespacedAfter<T(==)>(ts: seq<Tok<T>>): seq<Tok<T>>
    decreases |ts|
  {
    var n := FirstSolid(ts);
    if n == |ts| then [] else Gap(ts[..n], ts[n], 0) + [ts[n]] + RespacedAfter(ts[n + 1..])
  }

  /** The same text, its white space tidied: none at either end. */
  function Respaced<T(==)>(ts: seq<Tok<T>>): seq<Tok<T>> {
    var n := FirstSolid(ts);
    if n == |ts| then [] else [ts[n]] + RespacedAfter(ts[n + 1..])
  }

  // ---------- The passes, a gap at a time ----------

  predicate Spacing<T>(w: seq<Tok<T>>) {
    forall i :: 0 <= i < |w| ==> !Solid(w[i])
  }

  /** All but the trims at the ends of the text. */
  function Inner<T>(ts: seq<Tok<T>>): seq<Tok<T>> {
    TrimLineEnds(CapNewlines(DropBlanksBeforePunctuation(CollapseBlanks(ts))))
  }

  lemma TidyIsInner<T>(ts: seq<Tok<T>>)
    ensures TidySpace(ts) == TrimBack(TrimFront(Inner(ts)))
  {
    hide CollapseBlanks, DropBlanksBeforePunctuation, CapNewlines, TrimLineEnds, TrimFront, TrimBack;
    var p0 := Passes(0, ts);
    var p1 := Passes(1, ts);
    var p2 := Passes(2, ts);
    var p3 := Passes(3, ts);
    var p4 := Passes(4, ts);
    var p5 := Passes(5, ts);
    assert p1 == CollapseBlanks(p0) && p2 == DropBlanksBeforePunctuation(p1) && p3 == CapNewlines(p2);
    assert p4 == TrimLineEnds(p3) && p5 == TrimFront(p4);
  }

  lemma TokenRun<T>(t: Tok<T>, rest: seq<Tok<T>>, p: Class)
    ensures Run([t] + rest, p) == if Is(t, p) then 1 + Run(rest, p) else 0
  {
    assert ([t] + rest)[1..] == rest;
  }

  lemma {:induction false} RunIs<T>(ts: seq<Tok<T>>, p: Class, n: nat)
    requires n <= |ts| && (forall i :: 0 <= i < n ==> Is(ts[i], p)) && (n < |ts| ==> !Is(ts[n], p))
    ensures Run(ts, p) == n
  {
    if n > 0 { RunIs(ts[1..], p, n - 1); }
  }

  lemma LineEndsStep<T>(t: Tok<T>, rest: seq<Tok<T>>)
    ensures var r := TrimLineEnds(rest);
            TrimLineEnds([t] + rest) ==
            if Is(t, Spaces) && t != C('\n') && (r == [] || r[0] == C('\n')) then r else [t] + r
  {
    assert ([t] + rest)[1..] == rest;
  }

  /** A token that is no blank goes through the first two passes as it is, any but a newline through the third. */
  lemma TokenCollapses<T>(t: Tok<T>, rest: seq<Tok<T>>)
    requires !Is(t, Blanks)
    ensures CollapseBlanks([t] + rest) == [t] + CollapseBlanks(rest)
  {
    CollapseStep([t] + rest);
    TokenRun(t, rest, Blanks);
    assert ([t] + rest)[1..] == rest;
  }

  lemma TokenDrops<T>(t: Tok<T>, rest: seq<Tok<T>>)
    requires !Is(t, Blanks)
    ensures DropBlanksBeforePunctuation([t] + rest) == [t] + DropBlanksBeforePunctuation(rest)
  {
    PunctuationStep([t] + rest);
    TokenRun(t, rest, Blanks);
    assert ([t] + rest)[1..] == rest;
  }

  lemma TokenCaps<T>(t: Tok<T>, rest: seq<Tok<T>>)
    requires !Is(t, Newlines)
    ensures CapNewlines([t] + rest) == [t] + CapNewlines(rest)
  {
    NewlinesStep([t] + rest);
    TokenRun(t, rest, Newlines);
    assert ([t] + rest)[1..] == rest;
  }

  /** Neither a blank nor a newline. */
  lemma TokenInner<T>(t: Tok<T>, rest: seq<Tok<T>>)
    requires !Is(t, Blanks) && !Is(t, Newlines)
    ensures var r := Inner(rest);
            Inner([t] + rest) == if Is(t, Spaces) && (r == [] || r[0] == C('\n')) then r else [t] + r
  {
    hide CollapseBlanks, DropBlanksBeforePunctuation, CapNewlines, TrimLineEnds;
    TokenCollapses(t, rest);
    TokenDrops(t, CollapseBlanks(rest));
    TokenCaps(t, DropBlanksBeforePunctuation(CollapseBlanks(rest)));
    LineEndsStep(t, CapNewlines(DropBlanksBeforePunctuation(CollapseBlanks(rest))));
  }

  lemma SolidClass<T>(t: Tok<T>)
    ensures Solid(t) <==> !Is(t, Spaces)
    ensures Solid(t) ==> !Is(t, Blanks) && !Is(t, Newlines)
    ensures Is(t, Blanks) <==> IsBlank(t)
    ensures Is(t, Newlines) <==> t == C('\n')
    ensures Is(t, Punctuation) <==> EndsClause(t)
    ensures EndsClause(t) ==> Solid(t)
  {
  }

  lemma SolidInner<T>(t: Tok<T>, rest: seq<Tok<T>>)
    requires Solid(t)
    ensures Inner([t] + rest) == [t] + Inner(rest)
  {
    hide Inner;
    SolidClass(t);
    TokenInner(t, rest);
  }

  function Times<T>(t: Tok<T>, n: nat): (r: seq<Tok<T>>)
    ensures |r| == n && forall i :: 0 <= i < n ==> r[i] == t
  {
    if n == 0 then [] else [t] + Times(t, n - 1)
  }

  /** The first token of what the first two passes leave. */
  lemma FirstCollapsed<T>(ts: seq<Tok<T>>)
    requires ts != [] && ts[0] != C('\n')
    ensures var r := DropBlanksBeforePunctuation(CollapseBlanks(ts));
            r == [] || r[0] != C('\n')
  {
    CollapseStep(ts);
    var c := CollapseBlanks(ts);
    assert c[0] != C('\n');
    FirstDropped(c);
  }

  lemma FirstDropped<T>(c: seq<Tok<T>>)
    requires c != [] && c[0] != C('\n')
    ensures var r := DropBlanksBeforePunctuation(c); r == [] || r[0] != C('\n')
  {
    PunctuationStep(c);
    var n := Run(c, Blanks);
    if n > 0 && n < |c| && Is(c[n], Punctuation) {
      PunctuationStep(c[n..]);
      assert c[n..][0] == c[n];
      TokenRun(c[n], c[n..][1..], Blanks);
      assert [c[n]] + c[n..][1..] == c[n..];
    }
  }

  // A run of newlines.

  lemma TimesStep<T>(t: Tok<T>, n: nat, x: seq<Tok<T>>)
    requires n > 0
    ensures Times(t, n) + x == [t] + (Times(t, n - 1) + x)
  {
  }

  lemma NoTimes<T>(t: Tok<T>, x: seq<Tok<T>>)
    ensures Times(t, 0) + x == x
  {
  }

  lemma {:induction false} NewlinesCollapse<T>(n: nat, rest: seq<Tok<T>>)
    ensures CollapseBlanks(Times(C('\n'), n) + rest) == Times(C('\n'), n) + CollapseBlanks(rest)
    ensures DropBlanksBeforePunctuation(Times(C('\n'), n) + rest)
            == Times(C('\n'), n) + DropBlanksBeforePunctuation(rest)
    ensures TrimLineEnds(Times(C('\n'), n) + rest) == Times(C('\n'), n) + TrimLineEnds(rest)
  {
    var nl: Tok<T> := C('\n');
    hide CollapseBlanks, DropBlanksBeforePunctuation, TrimLineEnds, Times;
    if n == 0 {
      NoTimes(nl, rest);
      NoTimes(nl, CollapseBlanks(rest));
      NoTimes(nl, DropBlanksBeforePunctuation(rest));
      NoTimes(nl, TrimLineEnds(rest));
    } else {
      var tail := Times(nl, n - 1) + rest;
      NewlinesCollapse(n - 1, rest);
      TimesStep(nl, n, rest);
      TimesStep(nl, n, CollapseBlanks(rest));
      TimesStep(nl, n, DropBlanksBeforePunctuation(rest));
      TimesStep(nl, n, TrimLineEnds(rest));
      TokenCollapses(nl, tail);
      TokenDrops(nl, tail);
      LineEndsStep(nl, tail);
    }
  }

  lemma NewlinesCap<T>(n: nat, rest: seq<Tok<T>>)
    requires n > 0 && (rest != [] ==> rest[0] != C('\n'))
    ensures CapNewlines(Times(C('\n'), n) + rest) == Times(C('\n'), if n < 2 then n else 2) + CapNewlines(rest)
  {
    var nl: Tok<T> := C('\n');
    var ts := Times(nl, n) + rest;
    RunIs(ts, Newlines, n);
    NewlinesStep(ts);
    hide CapNewlines;
    if n >= 3 {
      assert ts[n..] == rest;
      assert Times(nl, 2) == [nl, nl];
    } else if n == 1 {
      assert ts[1..] == rest && Times(nl, 1) == [nl];
    } else {
      assert ts[1..] == [nl] + rest && Times(nl, 2) == [nl, nl];
      RunIs([nl] + rest, Newlines, 1);
      NewlinesStep([nl] + rest);
      assert ([nl] + rest)[1..] == rest;
    }
  }

  lemma NewlinesInner<T>(n: nat, rest: seq<Tok<T>>)
    requires n > 0 && rest != [] && rest[0] != C('\n')
    ensures Inner(Times(C('\n'), n) + rest) == Times(C('\n'), if n < 2 then n else 2) + Inner(rest)
  {
    hide CollapseBlanks, DropBlanksBeforePunctuation, CapNewlines, TrimLineEnds;
    NewlinesCollapse(n, rest);
    var c := CollapseBlanks(rest);
    NewlinesCollapse(n, c);
    var d := DropBlanksBeforePunctuation(c);
    FirstCollapsed(rest);
    NewlinesCap(n, d);
    NewlinesCollapse(if n < 2 then n else 2, CapNewlines(d));
  }

  // A run of blanks.

  /** What a run of blanks collapses to. */
  function OneBlank<T>(run: seq<Tok<T>>): Tok<T>
    requires run != []
  {
    if |run| >= 2 then C(' ') else run[0]
  }

  predicate AllBlank<T(==)>(run: seq<Tok<T>>) {
    forall i :: 0 <= i < |run| ==> IsBlank(run[i])
  }

  lemma BlanksCollapse<T>(run: seq<Tok<T>>, rest: seq<Tok<T>>)
    requires run != [] && AllBlank(run) && rest != [] && !IsBlank(rest[0])
    ensures CollapseBlanks(run + rest) == [OneBlank(run)] + CollapseBlanks(rest)
    ensures CollapseBlanks(rest) != [] && CollapseBlanks(rest)[0] == rest[0]
  {
    var ts := run + rest;
    RunIs(ts, Blanks, |run|);
    CollapseStep(ts);
    CollapseStep(rest);
    RunIs(rest, Blanks, 0);
    assert ts[|run|..] == rest;
    if |run| == 1 { assert ts[1..] == rest; }
  }

  lemma BlankDrops<T>(b: Tok<T>, rest: seq<Tok<T>>)
    requires IsBlank(b) && rest != [] && !IsBlank(rest[0])
    ensures DropBlanksBeforePunctuation([b] + rest)
            == (if EndsClause(rest[0]) then [] else [b]) + DropBlanksBeforePunctuation(rest)
  {
    var ts := [b] + rest;
    RunIs(ts, Blanks, 1);
    PunctuationStep(ts);
    assert ts[1..] == rest;
    SolidClass(rest[0]);
  }

  lemma BlanksInner<T>(run: seq<Tok<T>>, rest: seq<Tok<T>>)
    requires run != [] && AllBlank(run) && rest != [] && !IsBlank(rest[0])
    ensures var r := Inner(rest);
            Inner(run + rest) ==
            if EndsClause(rest[0]) || r == [] || r[0] == C('\n') then r else [OneBlank(run)] + r
  {
    hide CollapseBlanks, DropBlanksBeforePunctuation, CapNewlines, TrimLineEnds;
    var b := OneBlank(run);
    SolidClass(b);
    BlanksCollapse(run, rest);
    var c := CollapseBlanks(rest);
    BlankDrops(b, c);
    var d := DropBlanksBeforePunctuation(c);
    if EndsClause(rest[0]) {
      assert [] + d == d;
    } else {
      TokenCaps(b, d);
      LineEndsStep(b, CapNewlines(d));
    }
  }

  // ---------- A whole gap ----------

  /** The gap may be read on from `n`: no run goes across. */
  predicate Boundary<T(==)>(w: seq<Tok<T>>, n: nat)
    requires n <= |w|
  {
    0 < n < |w| ==> !(w[n - 1] == C('\n') && w[n] == C('\n')) && !(IsBlank(w[n - 1]) && IsBlank(w[n]))
  }

  /** What is left of a token, by what stands around it. */
  ghost function Pick<T>(t: Tok<T>, next: Tok<T>, third: bool, ahead: bool, again: bool, only: bool, more: bool)
    : seq<Tok<T>>
  {
    if t == C('\n') then (if third then [] else [t])
    else if ahead then []
    else if !IsBlank(t) then [t]
    else if again then []
    else if EndsClause(next) && only then []
    else if more then [C(' ')]
    else [t]
  }

  lemma LeftIs<T>(w: seq<Tok<T>>, next: Tok<T>, i: nat)
    requires i < |w|
    ensures Left(w, next, i) ==
            Pick(w[i], next, w[i] == C('\n') && i >= 2 && w[i - 1] == C('\n') && w[i - 2] == C('\n'), C('\n') in w[i..],
                 IsBlank(w[i]) && i > 0 && IsBlank(w[i - 1]), forall j :: i <= j < |w| ==> IsBlank(w[j]),
                 i + 1 < |w| && IsBlank(w[i + 1]))
  {
    hide IsBlank, EndsClause;
  }

  lemma LeftShifts<T>(w: seq<Tok<T>>, next: Tok<T>, n: nat, i: nat)
    requires n <= i < |w| && Boundary(w, n)
    ensures Left(w, next, i) == Left(w[n..], next, i - n)
  {
    hide Left, Pick, IsBlank;
    var v := w[n..];
    LeftIs(w, next, i);
    LeftIs(v, next, i - n);
    BlanksShift(w, n, i);
    assert v[i - n..] == w[i..];
    SliceAt(w, n, i);
    if i - n >= 1 { SliceAt(w, n, i - 1); }
    if i - n >= 2 { SliceAt(w, n, i - 2); }
    if i + 1 < |w| { SliceAt(w, n, i + 1); }
  }

  lemma SliceAt<T>(w: seq<T>, n: nat, j: nat)
    requires n <= j < |w|
    ensures w[n..][j - n] == w[j]
  {
  }

  lemma BlanksShift<T>(w: seq<Tok<T>>, n: nat, i: nat)
    requires n <= i <= |w|
    ensures (forall j :: i <= j < |w| ==> IsBlank(w[j])) <==>
            forall j :: i - n <= j < |w[n..]| ==> IsBlank(w[n..][j])
  {
    hide IsBlank;
    var v := w[n..];
    if forall j :: i - n <= j < |v| ==> IsBlank(v[j]) {
      forall j | i <= j < |w| ensures IsBlank(w[j]) {
        SliceAt(w, n, j);
        assert IsBlank(v[j - n]);
      }
    }
  }

  lemma {:induction false} GapShifts<T>(w: seq<Tok<T>>, next: Tok<T>, n: nat, i: nat)
    requires n <= i <= |w| && Boundary(w, n)
    ensures Gap(w, next, i) == Gap(w[n..], next, i - n)
    decreases |w| - i
  {
    hide Left, Boundary;
    if i < |w| {
      LeftShifts(w, next, n, i);
      GapShifts(w, next, n, i + 1);
    }
  }

  /** A gap begins with a newline exactly when it holds one. */
  lemma {:induction false} GapOpens<T>(w: seq<Tok<T>>, next: Tok<T>, i: nat)
    requires i <= |w| && Solid(next) && (C('\n') in w[i..] ==> forall j :: 0 <= j < i ==> w[j] != C('\n'))
    ensures var g := Gap(w, next, i) + [next];
            g[0] == C('\n') <==> C('\n') in w[i..]
    decreases |w| - i
  {
    SolidClass(next);
    if i < |w| {
      assert w[i..] == [w[i]] + w[i + 1..];
      if w[i] != C('\n') { GapOpens(w, next, i + 1); }
    }
  }

  /** Through the newlines of a run only the first two are left, through its blanks at most one. */
  lemma {:induction false} RunLeft<T>(w: seq<Tok<T>>, next: Tok<T>, n: nat, i: nat)
    requires 0 < i <= n <= |w|
    requires (forall j :: 0 <= j < n ==> w[j] == C('\n')) || (forall j :: 0 <= j < n ==> IsBlank(w[j]))
    ensures Gap(w, next, i) == (if w[0] == C('\n') && i == 1 && n > 1 then [C('\n')] else []) + Gap(w, next, n)
    decreases n - i
  {
    if i < n {
      RunLeft(w, next, n, i + 1);
      if w[0] == C('\n') {
        assert w[i] == C('\n') && w[i - 1] == C('\n');
        if i >= 2 { assert w[i - 2] == C('\n'); }
      } else {
        assert IsBlank(w[i]) && IsBlank(w[i - 1]) && w[i] != C('\n');
      }
    }
  }

  lemma NewlinesFirst<T>(w: seq<Tok<T>>, next: Tok<T>, n: nat)
    requires n == Run(w, Newlines) && n > 0
    ensures Gap(w, next, 0) == Times(C('\n'), if n < 2 then n else 2) + Gap(w[n..], next, 0)
  {
    var nl: Tok<T> := C('\n');
    forall j | 0 <= j < n ensures w[j] == nl { assert Is(w[j], Newlines); }
    assert Boundary(w, n);
    assert Left(w, next, 0) == [nl];
    hide Left, Boundary;
    RunLeft(w, next, n, 1);
    GapShifts(w, next, n, n);
    assert Times(nl, 1) == [nl] && Times(nl, 2) == [nl] + [nl];
    if n > 1 {
      assert [nl] + ([nl] + Gap(w, next, n)) == [nl] + [nl] + Gap(w, next, n);
    } else {
      assert [] + Gap(w, next, n) == Gap(w, next, n);
    }
  }

  lemma BlanksFirst<T>(w: seq<Tok<T>>, next: Tok<T>, n: nat)
    requires Spacing(w) && n == Run(w, Blanks) && n > 0
    ensures AllBlank(w[..n])
    ensures var left := if C('\n') in w[n..] || (EndsClause(next) && n == |w|) then [] else [OneBlank(w[..n])];
            Gap(w, next, 0) == left + Gap(w[n..], next, 0)
  {
    forall j | 0 <= j < n ensures IsBlank(w[j]) { assert Is(w[j], Blanks); }
    assert Boundary(w, n);
    BlankLeft(w, next, n);
    hide Left, Boundary, OneBlank;
    RunLeft(w, next, n, 1);
    GapShifts(w, next, n, n);
    assert [] + Gap(w, next, n) == Gap(w, next, n);
    assert w[0] != C('\n');
  }

  lemma BlankLeft<T>(w: seq<Tok<T>>, next: Tok<T>, n: nat)
    requires 0 < n <= |w| && (forall j :: 0 <= j < n ==> IsBlank(w[j])) && (n < |w| ==> !IsBlank(w[n]))
    ensures Left(w, next, 0)
            == if C('\n') in w[n..] || (EndsClause(next) && n == |w|) then [] else [OneBlank(w[..n])]
  {
    assert w[0..] == w && w == w[..n] + w[n..];
    assert forall j :: 0 <= j < n ==> w[..n][j] != C('\n');
    assert C('\n') in w <==> C('\n') in w[n..];
  }

  lemma OtherFirst<T>(w: seq<Tok<T>>, next: Tok<T>)
    requires w != [] && !IsBlank(w[0]) && w[0] != C('\n')
    ensures Gap(w, next, 0) == (if C('\n') in w[1..] then [] else [w[0]]) + Gap(w[1..], next, 0)
  {
    assert w[0..] == [w[0]] + w[1..];
    assert Boundary(w, 1);
    GapShifts(w, next, 1, 1);
  }

  /** The rest of the gap, read from its first run on. */
  ghost predicate Onward<T>(v: seq<Tok<T>>, next: Tok<T>, rest: seq<Tok<T>>) {
    Inner(v + [next] + rest) == Gap(v, next, 0) + [next] + Inner(rest)
  }

  lemma CutText<T>(w: seq<Tok<T>>, n: nat, next: Tok<T>, rest: seq<Tok<T>>)
    requires n <= |w|
    ensures var x := w[n..] + [next] + rest;
            w + [next] + rest == w[..n] + x && x[0] == if n < |w| then w[n] else next
  {
  }

  lemma Regrouped<T>(a: seq<T>, b: seq<T>, c: seq<T>, d: seq<T>)
    ensures a + (b + c + d) == a + b + c + d
  {
  }

  lemma NewlinesGap<T>(w: seq<Tok<T>>, next: Tok<T>, rest: seq<Tok<T>>, n: nat)
    requires Solid(next) && n == Run(w, Newlines) && n > 0 && Onward(w[n..], next, rest)
    ensures Onward(w, next, rest)
  {
    hide Inner, Gap, Run, Solid;
    SolidClass(next);
    var x, t: seq<Tok<T>> := w[n..] + [next] + rest, Times(C('\n'), if n < 2 then n else 2);
    CutText(w, n, next, rest);
    NewlinesRun(w, n);
    NewlinesFirst(w, next, n);
    NewlinesInner(n, x);
    Regrouped(t, Gap(w[n..], next, 0), [next], Inner(rest));
  }

  lemma NewlinesRun<T>(w: seq<Tok<T>>, n: nat)
    requires n == Run(w, Newlines)
    ensures w[..n] == Times(C('\n'), n) && (n < |w| ==> w[n] != C('\n'))
  {
    forall j | 0 <= j < n ensures w[j] == C('\n') { assert Is(w[j], Newlines); }
  }

  lemma BlanksRun<T>(w: seq<Tok<T>>, n: nat)
    requires n == Run(w, Blanks) && Spacing(w)
    ensures n < |w| ==> !IsBlank(w[n]) && !EndsClause(w[n])
  {
    if n < |w| { SolidClass(w[n]); }
  }

  lemma FirstOnward<T>(v: seq<Tok<T>>, next: Tok<T>, rest: seq<Tok<T>>)
    requires Solid(next) && Onward(v, next, rest)
    ensures var r := Inner(v + [next] + rest); r != [] && (r[0] == C('\n') <==> C('\n') in v)
  {
    hide Inner, Gap;
    GapOpens(v, next, 0);
    assert v[0..] == v;
    var g := Gap(v, next, 0) + [next];
    assert (g + Inner(rest))[0] == g[0];
  }

  lemma BlanksGap<T>(w: seq<Tok<T>>, next: Tok<T>, rest: seq<Tok<T>>, n: nat)
    requires Spacing(w) && Solid(next) && n == Run(w, Blanks) && n > 0 && Onward(w[n..], next, rest)
    ensures Onward(w, next, rest)
  {
    hide Inner, Gap, Run, Solid, OneBlank, IsBlank, EndsClause, AllBlank, Spacing;
    SolidClass(next);
    var v := w[n..];
    CutText(w, n, next, rest);
    BlanksRun(w, n);
    FirstOnward(v, next, rest);
    BlanksFirst(w, next, n);
    BlanksInner(w[..n], v + [next] + rest);
    Regrouped([OneBlank(w[..n])], Gap(v, next, 0), [next], Inner(rest));
    Regrouped([], Gap(v, next, 0), [next], Inner(rest));
    FrontNothing(Gap(v, next, 0) + [next] + Inner(rest));
  }

  lemma FrontNothing<T>(a: seq<T>)
    ensures [] + a == a
  {
  }

  lemma OtherGap<T>(w: seq<Tok<T>>, next: Tok<T>, rest: seq<Tok<T>>)
    requires Spacing(w) && Solid(next) && w != [] && !IsBlank(w[0]) && w[0] != C('\n') && Onward(w[1..], next, rest)
    ensures Onward(w, next, rest)
  {
    SolidClass(w[0]);
    hide Inner, Gap, Run, Solid, IsBlank;
    var v := w[1..];
    CutText(w, 1, next, rest);
    assert w[..1] == [w[0]];
    FirstOnward(v, next, rest);
    OtherFirst(w, next);
    TokenInner(w[0], v + [next] + rest);
    Regrouped([w[0]], Gap(v, next, 0), [next], Inner(rest));
    Regrouped([], Gap(v, next, 0), [next], Inner(rest));
    FrontNothing(Gap(v, next, 0) + [next] + Inner(rest));
  }

  lemma NothingOnward<T>(next: Tok<T>, rest: seq<Tok<T>>)
    requires Solid(next)
    ensures Onward([], next, rest)
  {
    hide Inner;
    assert [] + [next] + rest == [next] + rest;
    SolidInner(next, rest);
  }

  /** The gap in front of a word. */
  lemma {:induction false} GapInner<T>(w: seq<Tok<T>>, next: Tok<T>, rest: seq<Tok<T>>)
    requires Spacing(w) && Solid(next)
    ensures Inner(w + [next] + rest) == Gap(w, next, 0) + [next] + Inner(rest)
    decreases |w|
  {
    hide Inner, Gap, Run, Solid;
    if w == [] {
      NothingOnward(next, rest);
    } else {
      SolidClass(w[0]);
      if w[0] == C('\n') {
        var n := Run(w, Newlines);
        assert n > 0;
        GapInner(w[n..], next, rest);
        NewlinesGap(w, next, rest, n);
      } else if IsBlank(w[0]) {
        var n := Run(w, Blanks);
        assert n > 0;
        GapInner(w[n..], next, rest);
        BlanksGap(w, next, rest, n);
      } else {
        GapInner(w[1..], next, rest);
        OtherGap(w, next, rest);
      }
      assert Onward(w, next, rest);
    }
  }

  // ---------- The whole text ----------

  lemma {:induction false} SpacingCollapses<T>(w: seq<Tok<T>>)
    requires Spacing(w)
    ensures Spacing(CollapseBlanks(w))
    decreases |w|
  {
    if w != [] {
      CollapseStep(w);
      var n := Run(w, Blanks);
      SpacingCollapses(w[if n >= 2 then n else 1..]);
    }
  }

  lemma {:induction false} SpacingDrops<T>(w: seq<Tok<T>>)
    requires Spacing(w)
    ensures Spacing(DropBlanksBeforePunctuation(w))
    decreases |w|
  {
    if w != [] {
      PunctuationStep(w);
      var n := Run(w, Blanks);
      if n > 0 { SpacingDrops(w[n..]); }
      SpacingDrops(w[1..]);
    }
  }

  lemma {:induction false} SpacingCaps<T>(w: seq<Tok<T>>)
    requires Spacing(w)
    ensures Spacing(CapNewlines(w))
    decreases |w|
  {
    if w != [] {
      NewlinesStep(w);
      var n := Run(w, Newlines);
      SpacingCaps(w[if n >= 3 then n else 1..]);
    }
  }

  lemma {:induction false} SpacingLines<T>(w: seq<Tok<T>>)
    requires Spacing(w)
    ensures Spacing(TrimLineEnds(w))
  {
    if w != [] { SpacingLines(w[1..]); }
  }

  lemma SpacingInner<T>(w: seq<Tok<T>>)
    requires Spacing(w)
    ensures Spacing(Inner(w))
  {
    hide Spacing, CollapseBlanks, DropBlanksBeforePunctuation, CapNewlines, TrimLineEnds;
    SpacingCollapses(w);
    SpacingDrops(CollapseBlanks(w));
    SpacingCaps(DropBlanksBeforePunctuation(CollapseBlanks(w)));
    SpacingLines(CapNewlines(DropBlanksBeforePunctuation(CollapseBlanks(w))));
  }

  lemma {:induction false} GapSpacing<T>(w: seq<Tok<T>>, next: Tok<T>, i: nat)
    requires Spacing(w) && i <= |w|
    ensures Spacing(Gap(w, next, i))
    decreases |w| - i
  {
    if i < |w| { GapSpacing(w, next, i + 1); }
  }

  /** White space at the back goes. */
  lemma {:induction false} BackTrimmed<T>(ts: seq<Tok<T>>, w: seq<Tok<T>>)
    requires Spacing(w) && (ts == [] || Solid(ts[|ts| - 1]))
    ensures TrimBack(ts + w) == ts
  {
    if w == [] {
      assert ts + w == ts;
    } else {
      assert (ts + w)[..|ts + w| - 1] == ts + w[..|w| - 1];
      BackTrimmed(ts, w[..|w| - 1]);
    }
  }

  /** No more goes than what is behind the last word. */
  lemma {:induction false} BackKept<T>(a: seq<Tok<T>>, b: seq<Tok<T>>)
    requires b != [] && Solid(b[0])
    ensures TrimBack(a + b) == a + TrimBack(b)
  {
    var ts := a + b;
    if Is(b[|b| - 1], Spaces) {
      assert |b| > 1;
      assert ts[..|ts| - 1] == a + b[..|b| - 1];
      BackKept(a, b[..|b| - 1]);
    }
  }

  lemma FrontTrimmed<T>(w: seq<Tok<T>>, ts: seq<Tok<T>>)
    requires Spacing(w) && (ts == [] || Solid(ts[0]))
    ensures TrimFront(w + ts) == ts
  {
    RunIs(w + ts, Spaces, |w|);
  }

  lemma {:induction false} AfterWord<T>(s: Tok<T>, rest: seq<Tok<T>>)
    requires Solid(s)
    ensures TrimBack([s] + Inner(rest)) == [s] + RespacedAfter(rest)
    decreases |rest|
  {
    hide Inner, TrimBack, Gap, Solid;
    var n := FirstSolid(rest);
    if n == |rest| {
      assert Spacing(rest);
      SpacingInner(rest);
      BackTrimmed([s], Inner(rest));
      assert [s] + [] == [s];
    } else {
      var w, next, tail := rest[..n], rest[n], rest[n + 1..];
      assert rest == w + [next] + tail;
      assert Spacing(w);
      GapInner(w, next, tail);
      var g := Gap(w, next, 0);
      assert [s] + (g + [next] + Inner(tail)) == ([s] + g) + ([next] + Inner(tail));
      BackKept([s] + g, [next] + Inner(tail));
      AfterWord(next, tail);
      assert ([s] + g) + ([next] + RespacedAfter(tail)) == [s] + (g + [next] + RespacedAfter(tail));
    }
  }

  /** The passes come to just this: every token that is no white space stays where it was among the others, and
      the gaps between them are tidied place by place. */
  lemma TidyIsRespaced<T>(ts: seq<Tok<T>>)
    ensures TidySpace(ts) == Respaced(ts)
  {
    hide Inner, TrimBack, TrimFront, TidySpace, Gap, Solid, RespacedAfter;
    TidyIsInner(ts);
    var n := FirstSolid(ts);
    if n == |ts| {
      assert Spacing(ts);
      SpacingInner(ts);
      FrontTrimmed(Inner(ts), []);
      assert Inner(ts) + [] == Inner(ts);
      NothingBehind<T>();
    } else {
      var w, next, tail := ts[..n], ts[n], ts[n + 1..];
      assert ts == w + [next] + tail;
      assert Spacing(w);
      GapInner(w, next, tail);
      GapSpacing(w, next, 0);
      assert Gap(w, next, 0) + [next] + Inner(tail) == Gap(w, next, 0) + ([next] + Inner(tail));
      FrontTrimmed(Gap(w, next, 0), [next] + Inner(tail));
      AfterWord(next, tail);
    }
  }

  lemma NothingBehind<T>()
    ensures TrimBack<T>([]) == []
  {
  }

  // ---------- What a reader sees ----------

  /** The tokens that are no white space. */
  function Words<T>(ts: seq<Tok<T>>): seq<Tok<T>> {
    if ts == [] then [] else (if Solid(ts[0]) then [ts[0]] else []) + Words(ts[1..])
  }

  lemma WordsFirst<T>(ts: seq<Tok<T>>)
    requires ts != []
    ensures Words(ts) == (if Solid(ts[0]) then [ts[0]] else []) + Words(ts[1..])
  {
    hide Solid;
  }

  lemma {:induction false} WordsConcat<T>(a: seq<Tok<T>>, b: seq<Tok<T>>)
    ensures Words(a + b) == Words(a) + Words(b)
  {
    hide Solid, Words;
    if a == [] {
      NoWords<T>([]);
      assert a + b == b && [] + Words(b) == Words(b);
    } else {
      WordsFirst(a + b);
      WordsFirst(a);
      assert (a + b)[1..] == a[1..] + b;
      WordsConcat(a[1..], b);
      var first := if Solid(a[0]) then [a[0]] else [];
      assert first + (Words(a[1..]) + Words(b)) == (first + Words(a[1..])) + Words(b);
    }
  }

  lemma {:induction false} NoWords<T>(w: seq<Tok<T>>)
    requires Spacing(w)
    ensures Words(w) == []
  {
    if w != [] { NoWords(w[1..]); }
  }

  lemma WordsSplit<T>(w: seq<Tok<T>>, next: Tok<T>, rest: seq<Tok<T>>)
    requires Spacing(w) && Solid(next)
    ensures Words(w + [next] + rest) == [next] + Words(rest)
  {
    hide Solid;
    WordsConcat(w + [next], rest);
    WordsConcat(w, [next]);
    NoWords(w);
    assert [next][1..] == [];
  }

  lemma {:induction false} AfterKeepsWords<T>(ts: seq<Tok<T>>)
    ensures Words(RespacedAfter(ts)) == Words(ts)
    decreases |ts|
  {
    hide Solid, Gap, Words;
    var n := FirstSolid(ts);
    if n == |ts| {
      assert Spacing(ts);
      NoWords(ts);
      NoWords<T>([]);
    } else {
      assert Spacing(ts[..n]);
      GapSpacing(ts[..n], ts[n], 0);
      assert ts == ts[..n] + [ts[n]] + ts[n + 1..];
      WordsSplit(ts[..n], ts[n], ts[n + 1..]);
      WordsSplit(Gap(ts[..n], ts[n], 0), ts[n], RespacedAfter(ts[n + 1..]));
      AfterKeepsWords(ts[n + 1..]);
    }
  }

  /** Tidying loses, adds and moves nothing but white space. */
  lemma TidyKeepsWords<T>(ts: seq<Tok<T>>)
    ensures Words(TidySpace(ts)) == Words(ts)
  {
    hide Solid, Gap, Words, TidySpace, RespacedAfter;
    TidyIsRespaced(ts);
    var n := FirstSolid(ts);
    assert Spacing(ts[..n]);
    if n == |ts| {
      assert ts[..n] == ts;
      NoWords(ts);
      NoWords<T>([]);
    } else {
      assert ts == ts[..n] + [ts[n]] + ts[n + 1..];
      WordsSplit(ts[..n], ts[n], ts[n + 1..]);
      assert [] + [ts[n]] + RespacedAfter(ts[n + 1..]) == [ts[n]] + RespacedAfter(ts[n + 1..]);
      WordsSplit([], ts[n], RespacedAfter(ts[n + 1..]));
      AfterKeepsWords(ts[n + 1..]);
    }
  }

  /** No line ends in white space here, and a blank stands in front of neither another one nor punctuation. */
  predicate NeatPair<T(==)>(a: Tok<T>, b: Tok<T>) {
    && (b == C('\n') ==> Solid(a) || a == C('\n'))
    && (IsBlank(a) ==> !IsBlank(b) && !EndsClause(b))
  }

  predicate Neat<T(==)>(ts: seq<Tok<T>>) {
    forall i :: 0 <= i < |ts| - 1 ==> NeatPair(ts[i], ts[i + 1])
  }

  lemma NeatConcat<T>(a: seq<Tok<T>>, b: seq<Tok<T>>)
    requires Neat(a) && Neat(b) && (a != [] && b != [] ==> NeatPair(a[|a| - 1], b[0]))
    ensures Neat(a + b)
  {
    hide NeatPair;
    var ts := a + b;
    forall i | 0 <= i < |ts| - 1 ensures NeatPair(ts[i], ts[i + 1]) {
      if i < |a| - 1 {
        assert ts[i] == a[i] && ts[i + 1] == a[i + 1];
      } else if i >= |a| {
        assert ts[i] == b[i - |a|] && ts[i + 1] == b[i + 1 - |a|];
      }
    }
  }

  lemma {:induction false} AfterBlank<T>(w: seq<Tok<T>>, next: Tok<T>, i: nat)
    requires 0 < i <= |w| && Spacing(w) && Solid(next) && IsBlank(w[i - 1]) && C('\n') !in w[i..]
    ensures var f := (Gap(w, next, i) + [next])[0];
            !IsBlank(f) && (EndsClause(f) ==> EndsClause(next) && forall j :: i <= j < |w| ==> IsBlank(w[j]))
    decreases |w| - i
  {
    SolidClass(next);
    if i < |w| {
      assert w[i..] == [w[i]] + w[i + 1..];
      assert w[i] != C('\n');
      SolidClass(w[i]);
      if IsBlank(w[i]) { AfterBlank(w, next, i + 1); }
    }
  }

  lemma {:induction false} GapNeat<T>(w: seq<Tok<T>>, next: Tok<T>, i: nat)
    requires i <= |w| && Spacing(w) && Solid(next)
    ensures Neat(Gap(w, next, i) + [next])
    decreases |w| - i
  {
    if i < |w| {
      GapNeat(w, next, i + 1);
      var left, rest := Left(w, next, i), Gap(w, next, i + 1) + [next];
      assert Gap(w, next, i) + [next] == left + rest;
      if left != [] {
        LeftNeat(w, next, i);
        NeatConcat(left, rest);
      } else {
        assert left + rest == rest;
      }
    }
  }

  lemma LeftNeat<T>(w: seq<Tok<T>>, next: Tok<T>, i: nat)
    requires i < |w| && Spacing(w) && Solid(next) && Left(w, next, i) != []
    ensures |Left(w, next, i)| == 1
    ensures NeatPair(Left(w, next, i)[0], (Gap(w, next, i + 1) + [next])[0])
  {
    SolidClass(next);
    assert w[i..] == [w[i]] + w[i + 1..];
    if w[i] != C('\n') {
      hide Gap;
      assert C('\n') !in w[i + 1..];
      GapOpens(w, next, i + 1);
      if IsBlank(w[i]) { AfterBlank(w, next, i + 1); }
    }
  }

  lemma {:induction false} AfterNeat<T>(s: Tok<T>, ts: seq<Tok<T>>)
    requires Solid(s)
    ensures Neat([s] + RespacedAfter(ts)) && Solid(([s] + RespacedAfter(ts))[|RespacedAfter(ts)|])
    decreases |ts|
  {
    hide Gap, NeatPair;
    var n := FirstSolid(ts);
    if n < |ts| {
      var w, next, rest := ts[..n], ts[n], ts[n + 1..];
      assert Spacing(w);
      GapNeat(w, next, 0);
      AfterNeat(next, rest);
      var g, r := Gap(w, next, 0) + [next], RespacedAfter(rest);
      assert Neat([s]);
      SolidPair(s, g[0]);
      NeatConcat([s], g);
      TailNeat(next, r);
      if r != [] { SolidPair(next, r[0]); }
      NeatConcat([s] + g, r);
      assert [s] + (g + r) == ([s] + g) + r;
      assert RespacedAfter(ts) == g + r;
    }
  }

  lemma SolidPair<T>(a: Tok<T>, b: Tok<T>)
    requires Solid(a)
    ensures NeatPair(a, b)
  {
    SolidClass(a);
  }

  lemma TailNeat<T>(t: Tok<T>, ts: seq<Tok<T>>)
    requires Neat([t] + ts)
    ensures Neat(ts)
  {
    hide NeatPair;
    var all := [t] + ts;
    forall i | 0 <= i < |ts| - 1 ensures NeatPair(ts[i], ts[i + 1]) {
      assert ts[i] == all[i + 1] && ts[i + 1] == all[i + 2];
    }
  }

  /** Neither end of a tidied text and no end of a line in it is white space, no blank stands in front of
      punctuation, and no two stand together. */
  lemma TidyIsNeat<T>(ts: seq<Tok<T>>)
    ensures var r := TidySpace(ts);
            Neat(r) && (r != [] ==> Solid(r[0]) && Solid(r[|r| - 1]))
  {
    hide TidySpace, RespacedAfter, NeatPair;
    TidyIsRespaced(ts);
    var n := FirstSolid(ts);
    if n < |ts| { AfterNeat(ts[n], ts[n + 1..]); }
  }
}
