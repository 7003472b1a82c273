/** Where the keys of a block stand: line by line, before and after a rewrite. */
module EnvelopeKeys {
  import opened Options
  import opened JsText
  import opened EnvelopeFix
  import EnvelopePlace

  // ---------- The keys of a text are the keys of its lines ----------

  /** The line opens on a colon, so that a key could stand on the line above. */
  predicate LooseColon(l: string) {
    var n := |Indent(l)|;
    n < |l| && l[n] == ':'
  }

  predicate NoLooseColon(lines: seq<string>) {
    forall i :: 0 <= i < |lines| ==> !LooseColon(lines[i])
  }

  /** Names as the block's own keys are: letters only. */
  predicate Word(k: string) {
    k != [] && forall i :: 0 <= i < |k| ==> 'a' <= k[i] <= 'z' || 'A' <= k[i] <= 'Z'
  }

  ghost predicate LineHas(lines: seq<string>, k: string) {
    exists i :: 0 <= i < |lines| && HasKey(lines[i], k)
  }

  lemma OpensOnColon(l: string, m: nat)
    requires m < |l| && l[m] == ':' && forall k :: 0 <= k < m ==> IsSpace(l[k])
    ensures LooseColon(l)
  {
    assert Blank(l[..m]);
    IndentIs(l, m);
  }

  /** A colon behind nothing but white space opens one of the lines. */
  lemma {:induction false} ColonFirst(lines: seq<string>, m: nat) returns (i: nat)
    requires var s := Join(lines); m < |s| && s[m] == ':' && forall k :: 0 <= k < m ==> IsSpace(s[k])
    ensures i < |lines| && LooseColon(lines[i])
  {
    var s := Join(lines);
    if |lines| == 1 || m < |lines[0]| {
      i := 0;
      assert forall k :: 0 <= k <= m ==> lines[0][k] == s[k];
      OpensOnColon(lines[0], m);
    } else {
      var rest := Join(lines[1..]);
      assert s == lines[0] + "\n" + rest;
      assert s[|lines[0]|] == '\n';
      var d := m - |lines[0]| - 1;
      assert forall k :: 0 <= k < d ==> rest[k] == s[|lines[0]| + 1 + k];
      i := ColonFirst(lines[1..], d);
      i := i + 1;
    }
  }

  /** A colon behind white space, in another text that reads the same there. */
  lemma ColonElsewhere(a: string, n: nat, q: nat, b: string, m: nat)
    requires ColonAt(a, n, q) && m + (q - n) < |b| && a[n..q + 1] == b[m..m + (q - n) + 1]
    ensures ColonAt(b, m, m + (q - n))
  {
    var s := a[n..q + 1];
    forall k | m <= k <= m + (q - n) ensures b[k] == s[k - m] && s[k - m] == a[n + (k - m)] {
    }
  }

  lemma NoBreak(s: string, k: string, p: nat)
    requires Word(k) && KeyAt(s, k, p)
    ensures forall i :: p <= i < p + |Quoted(k)| ==> s[i] != '\n'
  {
    var key := Quoted(k);
    forall i | p <= i < p + |key| ensures s[i] != '\n' {
      assert s[p..p + |key|][i - p] == key[i - p];
    }
  }

  lemma KeyGrows(a: string, b: string, k: string, p: nat)
    requires KeyAt(a, k, p)
    ensures KeyAt(a + b, k, p)
  {
    var n := p + |Quoted(k)|;
    var q: nat :| q < |a| && ColonAt(a, n, q);
    assert ColonAt(a + b, n, q);
    assert (a + b)[p..n] == a[p..n];
  }

  lemma KeyMoves(a: string, b: string, k: string, p: nat)
    requires KeyAt(b, k, p)
    ensures KeyAt(a + b, k, |a| + p)
  {
    var n := p + |Quoted(k)|;
    var q: nat :| q < |b| && ColonAt(b, n, q);
    assert ColonAt(a + b, |a| + n, |a| + q);
    assert (a + b)[|a| + p..|a| + n] == b[p..n];
  }

  /** A key in two lines and their break stands in one of them, or a colon opens the second. */
  lemma KeySplits(l: string, rest: string, k: string, p: nat)
    requires Word(k) && KeyAt(l + "\n" + rest, k, p)
    ensures || HasKey(l, k) || HasKey(rest, k)
            || exists m: nat :: m < |rest| && rest[m] == ':' && forall i :: 0 <= i < m ==> IsSpace(rest[i])
  {
    var s, n, key := l + "\n" + rest, p + |Quoted(k)|, Quoted(k);
    var q: nat :| q < |s| && ColonAt(s, n, q);
    NoBreak(s, k, p);
    assert s[|l|] == '\n';
    if p > |l| {
      var d := |l| + 1;
      assert rest[p - d..n - d] == s[p..n];
      ColonElsewhere(s, n, q, rest, n - d);
      assert KeyAt(rest, k, p - d);
    } else if q < |l| {
      assert l[p..n] == s[p..n];
      ColonElsewhere(s, n, q, l, n);
      assert KeyAt(l, k, p);
    } else {
      var m := q - |l| - 1;
      assert s[|l|] == '\n' && q != |l|;
      assert rest[m] == s[q];
      assert forall i :: 0 <= i < m ==> rest[i] == s[|l| + 1 + i];
    }
  }

  /** Where no line opens on a colon, the keys of the text are the keys of its lines. */
  lemma {:induction false} KeysByLine(lines: seq<string>, k: string)
    requires NoLooseColon(lines) && Word(k)
    ensures HasKey(Join(lines), k) <==> LineHas(lines, k)
  {
    if |lines| > 1 {
      var l, rest := lines[0], Join(lines[1..]);
      KeysByLine(lines[1..], k);
      assert Join(lines) == l + "\n" + rest;
      KeyOfTwo(lines, k);
    } else if |lines| == 1 {
      assert HasKey(lines[0], k) ==> LineHas(lines, k);
    } else {
      assert !LineHas(lines, k);
    }
  }

  lemma NoLooseTail(lines: seq<string>, i: nat)
    requires NoLooseColon(lines) && i + 1 < |lines|
    ensures !LooseColon(lines[1..][i])
  {
    assert lines[1..][i] == lines[i + 1];
  }

  lemma KeyOfTwo(lines: seq<string>, k: string)
    requires |lines| > 1 && NoLooseColon(lines) && Word(k)
    requires HasKey(Join(lines[1..]), k) <==> LineHas(lines[1..], k)
    ensures HasKey(lines[0] + "\n" + Join(lines[1..]), k) <==> LineHas(lines, k)
  {
    hide KeyAt, LooseColon, Join;
    var l, tail := lines[0], lines[1..];
    var rest := Join(tail);
    var s := l + "\n" + rest;
    LineHasSplits(lines, k);
    if HasKey(s, k) {
      var p: nat :| p < |s| && KeyAt(s, k, p);
      KeySplits(l, rest, k, p);
      if !HasKey(l, k) && !HasKey(rest, k) {
        var m: nat :| m < |rest| && rest[m] == ':' && forall i :: 0 <= i < m ==> IsSpace(rest[i]);
        var i := ColonFirst(tail, m);
        NoLooseTail(lines, i);
      }
    }
    if HasKey(l, k) {
      var p: nat :| p < |l| && KeyAt(l, k, p);
      KeyGrows(l, "\n" + rest, k, p);
      assert l + ("\n" + rest) == s;
    }
    if HasKey(rest, k) {
      var p: nat :| p < |rest| && KeyAt(rest, k, p);
      KeyMoves(l + "\n", rest, k, p);
    }
  }

  lemma LineHasSplits(lines: seq<string>, k: string)
    requires lines != []
    ensures LineHas(lines, k) <==> HasKey(lines[0], k) || LineHas(lines[1..], k)
  {
    hide HasKey;
    if LineHas(lines[1..], k) {
      var i :| 0 <= i < |lines[1..]| && HasKey(lines[1..][i], k);
      assert HasKey(lines[i + 1], k);
    }
    if LineHas(lines, k) && !HasKey(lines[0], k) {
      var i :| 0 <= i < |lines| && HasKey(lines[i], k);
      assert HasKey(lines[1..][i - 1], k);
    }
  }

  lemma LineHasConcat(a: seq<string>, b: seq<string>, k: string)
    ensures LineHas(a + b, k) <==> LineHas(a, k) || LineHas(b, k)
  {
    hide HasKey;
    if i :| 0 <= i < |a| && HasKey(a[i], k) { assert HasKey((a + b)[i], k); }
    if i :| 0 <= i < |b| && HasKey(b[i], k) { assert HasKey((a + b)[|a| + i], k); }
    if i :| 0 <= i < |a + b| && HasKey((a + b)[i], k) {
      assert if i < |a| then HasKey(a[i], k) else HasKey(b[i - |a|], k);
    }
  }

  // ---------- `"success": false` ----------

  lemma SuccessGrows(a: string, b: string)
    requires SuccessFalse(a)
    ensures SuccessFalse(a + b)
  {
    var p: nat, q: nat :| p < |a| && q < |a| && SuccessFalseAt(a, p, q);
    var n := p + |Quoted("success")|;
    var r: nat :| r < |a| && FalseAt(a, q + 1, r);
    assert (a + b)[p..n] == a[p..n] && (a + b)[r..r + 5] == a[r..r + 5];
    assert ColonAt(a + b, n, q) && FalseAt(a + b, q + 1, r);
    assert SuccessFalseAt(a + b, p, q);
  }

  lemma SuccessMoves(a: string, b: string)
    requires SuccessFalse(b)
    ensures SuccessFalse(a + b)
  {
    var p: nat, q: nat :| p < |b| && q < |b| && SuccessFalseAt(b, p, q);
    var n := p + |Quoted("success")|;
    var r: nat :| r < |b| && FalseAt(b, q + 1, r);
    assert (a + b)[|a| + p..|a| + n] == b[p..n] && (a + b)[|a| + r..|a| + r + 5] == b[r..r + 5];
    assert ColonAt(a + b, |a| + n, |a| + q) && FalseAt(a + b, |a| + q + 1, |a| + r);
    assert SuccessFalseAt(a + b, |a| + p, |a| + q);
  }

  lemma {:induction false} SuccessInText(lines: seq<string>, i: nat)
    requires i < |lines| && SuccessFalse(lines[i])
    ensures SuccessFalse(Join(lines))
  {
    hide SuccessFalse;
    if |lines| > 1 {
      var rest := Join(lines[1..]);
      if i == 0 {
        SuccessGrows(lines[0], "\n" + rest);
        assert lines[0] + ("\n" + rest) == Join(lines);
      } else {
        SuccessInText(lines[1..], i - 1);
        SuccessMoves(lines[0] + "\n", rest);
      }
    }
  }

  lemma SuccessIsKey(l: string)
    requires SuccessFalse(l)
    ensures HasKey(l, "success")
  {
    var p: nat, q: nat :| p < |l| && q < |l| && SuccessFalseAt(l, p, q);
    assert ColonAt(l, p + |Quoted("success")|, q);
    assert KeyAt(l, "success", p);
  }

  // ---------- Putting a comma at a line's end ----------

  /** All of the line up to its last character that is neither white space nor the comma stays. */
  lemma CommaKeepsUpTo(l: string, q: nat)
    requires q < |l| && !IsSpace(l[q]) && l[q] != ','
    ensures q < |Bare(l)| && Bare(l) <= l && Bare(l) <= WithComma(l)
  {
    EnvelopePlace.BareKeeps(l, q);
  }

  lemma {:induction false} BareIsPrefix(l: string)
    ensures Bare(l) <= l && TrimEnd(l) <= l
  {
    if l != [] && IsSpace(l[|l| - 1]) { BareIsPrefix(l[..|l| - 1]); }
  }

  lemma CommaKeepsKeys(l: string, k: string)
    ensures HasKey(WithComma(l), k) <==> HasKey(l, k)
  {
    BareIsPrefix(l);
    var b, m := Bare(l), WithComma(l);
    if HasKey(l, k) {
      var p: nat :| p < |l| && KeyAt(l, k, p);
      var n := p + |Quoted(k)|;
      var q: nat :| q < |l| && ColonAt(l, n, q);
      CommaKeepsUpTo(l, q);
      assert m[p..n] == l[p..n];
      ColonElsewhere(l, n, q, m, n);
      assert KeyAt(m, k, p);
    }
    if HasKey(m, k) {
      var p: nat :| p < |m| && KeyAt(m, k, p);
      var n := p + |Quoted(k)|;
      var q: nat :| q < |m| && ColonAt(m, n, q);
      assert q < |b|;
      assert m[p..n] == l[p..n];
      ColonElsewhere(m, n, q, l, n);
      assert KeyAt(l, k, p);
    }
  }

  lemma CommaKeepsSuccess(l: string)
    ensures SuccessFalse(WithComma(l)) <==> SuccessFalse(l)
  {
    BareIsPrefix(l);
    var b, m := Bare(l), WithComma(l);
    if SuccessFalse(l) {
      var p: nat, q: nat :| p < |l| && q < |l| && SuccessFalseAt(l, p, q);
      var r: nat :| r < |l| && FalseAt(l, q + 1, r);
      assert l[r + 4] == l[r..r + 5][4] == 'e';
      CommaKeepsUpTo(l, r + 4);
      SameSuccess(l, m, |b|, p, q, r);
    }
    if SuccessFalse(m) {
      var p: nat, q: nat :| p < |m| && q < |m| && SuccessFalseAt(m, p, q);
      var r: nat :| r < |m| && FalseAt(m, q + 1, r);
      assert m[r + 4] == m[r..r + 5][4] == 'e';
      assert r + 4 < |b|;
      SameSuccess(m, l, |b|, p, q, r);
    }
  }

  lemma SameSuccess(a: string, b: string, n: nat, p: nat, q: nat, r: nat)
    requires n <= |a| && n <= |b| && a[..n] == b[..n] && r + 5 <= n && p < |a| && q < |a| && r < |a|
    requires SuccessFalseAt(a, p, q) && FalseAt(a, q + 1, r)
    ensures SuccessFalse(b)
  {
    var k := p + |Quoted("success")|;
    assert forall i :: 0 <= i < n ==> a[i] == b[i];
    assert a[p..k] == b[p..k] && a[r..r + 5] == b[r..r + 5];
    assert ColonAt(b, k, q) && FalseAt(b, q + 1, r);
    assert SuccessFalseAt(b, p, q);
  }

  lemma CommaKeepsStart(l: string, k: string)
    requires HasKey(l, k)
    ensures LooseColon(WithComma(l)) ==> LooseColon(l)
  {
    var p: nat :| p < |l| && KeyAt(l, k, p);
    EnvelopePlace.KeyInBare(l, k, p);
    assert l[p..p + |Quoted(k)|][0] == l[p] == '"';
    IndentStops(l, p);
    IndentPrefix(l);
    hide Bare, KeyAt, HasKey;
    SameStart(l, WithComma(l), Bare(l), |Indent(l)|);
  }

  /** Two lines with a common start beyond the indent have the same indent. */
  lemma SameStart(l: string, m: string, b: string, n: nat)
    requires b <= l && b <= m && n < |b| && n == |Indent(l)| && Indent(l) <= l && !IsSpace(l[n])
    ensures |Indent(m)| == n && m[n] == l[n]
  {
    assert l[..n] == Indent(l) == m[..n];
    assert b[n] == l[n] == m[n];
    IndentIs(m, n);
  }

  lemma {:induction false} IndentStops(l: string, p: nat)
    requires p < |l| && !IsSpace(l[p])
    ensures |Indent(l)| <= p
  {
    if IsSpace(l[0]) { IndentStops(l[1..], p - 1); }
  }
}
