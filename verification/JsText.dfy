/** White space as JavaScript's string functions see it, and JSON keys looked for in plain text. */
module JsText {
  /** The white space and line terminators String.prototype.trim removes. */
  predicate IsSpace(c: char) {
    var n := c as int;
    || 9 <= n <= 13 || n == 0x20 || n == 0xA0 || n == 0x1680 || 0x2000 <= n <= 0x200A
    || n == 0x2028 || n == 0x2029 || n == 0x202F || n == 0x205F || n == 0x3000 || n == 0xFEFF
  }

  /** Tab, vertical tab, form feed, space, the no-break spaces and the other space separators; line feed,
      carriage return, and the line and paragraph separators (ECMA-262, sections 12.2 and 12.3). */
  lemma SpaceExactly(c: char)
    ensures IsSpace(c) <==>
            || c as int in {0x9, 0xB, 0xC, 0x20, 0xA0, 0xFEFF}
            || c as int in {0x1680, 0x202F, 0x205F, 0x3000} || 0x2000 <= c as int <= 0x200A
            || c as int in {0xA, 0xD, 0x2028, 0x2029}
  {
  }

  predicate Blank(s: string) {
    forall k :: 0 <= k < |s| ==> IsSpace(s[k])
  }

  // ---------- JSON keys in text ----------

  /** White space only from `n` up to a colon at `q`. */
  predicate ColonAt(s: string, n: nat, q: nat) {
    n <= q < |s| && s[q] == ':' && forall k :: n <= k < q ==> IsSpace(s[k])
  }

  predicate ColonFollows(s: string, n: nat) {
    exists q: nat :: q < |s| && ColonAt(s, n, q)
  }

  function Quoted(k: string): string {
    "\"" + k + "\""
  }

  /** `"k"\s*:` matches at `p`. */
  predicate KeyAt(s: string, k: string, p: nat) {
    && p + |Quoted(k)| <= |s| && s[p..p + |Quoted(k)|] == Quoted(k)
    && ColonFollows(s, p + |Quoted(k)|)
  }

  predicate HasKey(s: string, k: string) {
    exists p: nat :: p < |s| && KeyAt(s, k, p)
  }

  /** The key in quotes, white space if any, and a colon, behind `before`. */
  ghost predicate KeyBehind(s: string, k: string, before: string, gap: string, after: string) {
    s == before + ("\"" + k + "\"" + gap + ":" + after) && forall c :: c in gap ==> IsSpace(c)
  }

  lemma BlankExactly(s: string)
    ensures Blank(s) <==> forall c :: c in s ==> IsSpace(c)
  {
    hide IsSpace;
    assert forall i :: 0 <= i < |s| ==> s[i] in s;
  }

  lemma QuotedLength(k: string)
    ensures |Quoted(k)| == |k| + 2
  {
  }

  lemma KeySplits(s: string, k: string, p: nat, q: nat)
    requires p + |k| + 2 <= q < |s| && s[p..p + |k| + 2] == Quoted(k) && ColonAt(s, p + |k| + 2, q)
    ensures KeyBehind(s, k, s[..p], s[p + |k| + 2..q], s[q + 1..])
  {
    hide IsSpace;
    var n := p + |k| + 2;
    assert s == s[..p] + (s[p..n] + s[n..q] + [s[q]] + s[q + 1..]);
  }

  lemma KeyBehindAt(s: string, k: string, p: nat, gap: string, after: string)
    requires p <= |s| && KeyBehind(s, k, s[..p], gap, after)
    ensures KeyAt(s, k, p)
  {
    hide IsSpace;
    var n := p + |k| + 2;
    var tail := Quoted(k) + gap + ":" + after;
    assert tail[..|k| + 2] == Quoted(k) && s[p..] == tail;
    assert s[p..n] == tail[..|k| + 2];
    assert forall i :: n <= i < n + |gap| ==> s[i] == gap[i - n];
    assert ColonAt(s, n, n + |gap|);
  }

  lemma KeyAtExactly(s: string, k: string, p: nat)
    requires p <= |s|
    ensures KeyAt(s, k, p) <==> exists gap, after :: KeyBehind(s, k, s[..p], gap, after)
  {
    hide IsSpace, KeyBehind, Quoted;
    var n := p + |k| + 2;
    QuotedLength(k);
    if KeyAt(s, k, p) {
      var q: nat :| q < |s| && ColonAt(s, n, q);
      KeySplits(s, k, p, q);
    }
    forall gap, after | KeyBehind(s, k, s[..p], gap, after) ensures KeyAt(s, k, p) {
      KeyBehindAt(s, k, p, gap, after);
    }
  }

  /** A key is found exactly where the text can be cut that way. */
  lemma HasKeyExactly(s: string, k: string)
    ensures HasKey(s, k) <==> exists before, gap, after :: KeyBehind(s, k, before, gap, after)
  {
    if HasKey(s, k) {
      var p: nat :| p < |s| && KeyAt(s, k, p);
      KeyAtExactly(s, k, p);
    }
    forall before, gap, after | KeyBehind(s, k, before, gap, after) ensures HasKey(s, k) {
      assert s[..|before|] == before;
      KeyBehindAt(s, k, |before|, gap, after);
    }
  }
}
