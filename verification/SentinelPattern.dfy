/** The sentinel pattern, stated by the codes of the characters it matches. */
module SentinelPattern {
  import opened Options
  import opened TemplateCompiler
  import opened TextTidy

  /** `a` to `z` and `A` to `Z`. */
  ghost predicate LetterCode(c: char) {
    0x41 <= c as int <= 0x5A || 0x61 <= c as int <= 0x7A
  }

  /** A guillemet, letters, and the guillemet that closes it. */
  ghost predicate Spells(s: string, key: string) {
    key != [] && (forall c :: c in key ==> LetterCode(c)) && [0xAB as char] + key + [0xBB as char] <= s
  }

  /** The pattern matches at the start of a text exactly when that text begins with letters in guillemets. */
  lemma SentinelAtExactly(s: string, key: string)
    ensures SentinelAt(s) == Some(key) <==> Spells(s, key)
  {
    if SentinelAt(s) == Some(key) {
      SentinelIsPrefix(s);
      assert forall c :: c in key ==> LetterCode(c);
    }
    if Spells(s, key) {
      var rest := s[|key| + 2..];
      assert s == Sentinel(key) + rest;
      forall i | 0 <= i < |key| ensures IsLetter(key[i]) {
        assert key[i] in key;
      }
      SentinelAtSentinel(key, rest);
    }
  }

  ghost predicate LetterAt(copy: Copy, i: nat) {
    i < |copy| && copy[i].C? && LetterCode(copy[i].c)
  }

  /** The copy's own text holds letters in guillemets from `i` to `j`. */
  ghost predicate SpellsOut(copy: Copy, i: nat, j: nat) {
    && i + 1 < j < |copy| && copy[i] == C(0xAB as char) && copy[j] == C(0xBB as char)
    && forall k :: i < k < j ==> LetterAt(copy, k)
  }

  lemma LeftoverExactly(copy: Copy, i: nat, j: nat)
    requires i + 1 < j < |copy|
    ensures LeftoverAt(copy[i..]) == Some(j - i - 1) <==> SpellsOut(copy, i, j)
  {
    var ts := copy[i..];
    var n := Run(ts[1..], Letters);
    assert forall k :: 0 <= k < |ts| ==> ts[k] == copy[i + k];
    assert forall k :: 0 <= k < |ts| - 1 ==> ts[1..][k] == copy[i + 1 + k];
    if SpellsOut(copy, i, j) {
      assert n < j - i - 1 ==> LetterAt(copy, i + 1 + n);
      assert ts[1..][j - i - 1] == copy[j] && !Is(copy[j], Letters);
    }
    if LeftoverAt(ts) == Some(j - i - 1) {
      assert n == j - i - 1;
      forall k | i < k < j ensures LetterAt(copy, k) {
        assert Is(ts[1..][k - i - 1], Letters);
      }
    }
  }

  /** A copy is clean exactly when its keys are letters and its own text spells out no sentinel. */
  lemma CleanExactly(copy: Copy)
    ensures Clean(copy) <==>
            && (forall key :: Slot(key) in copy ==> key != [] && forall c :: c in key ==> LetterCode(c))
            && forall i: nat, j: nat :: !SpellsOut(copy, i, j)
  {
    NoRunsExactly(copy);
    KeysExactly(copy);
    hide LeftoverAt, SpellsOut, LettersOnly, LetterCode, NoRuns;
  }

  lemma NoRunsExactly(copy: Copy)
    ensures NoRuns(copy) <==> forall i: nat, j: nat :: !SpellsOut(copy, i, j)
  {
    hide LeftoverAt, Run;
    if NoRuns(copy) {
      forall i: nat, j: nat ensures !SpellsOut(copy, i, j) {
        if SpellsOut(copy, i, j) { LeftoverExactly(copy, i, j); }
      }
    } else {
      var i: nat :| i < |copy| && LeftoverAt(copy[i..]) != None;
      var n := LeftoverAt(copy[i..]).value;
      LeftoverFits(copy[i..], n);
      LeftoverExactly(copy, i, i + n + 1);
      assert SpellsOut(copy, i, i + n + 1);
    }
  }

  lemma LeftoverFits(ts: Copy, n: nat)
    requires LeftoverAt(ts) == Some(n)
    ensures n > 0 && n + 1 < |ts|
  {
  }

  lemma KeysExactly(copy: Copy)
    ensures LetterKeys(copy) <==>
            forall key :: Slot(key) in copy ==> key != [] && forall c :: c in key ==> LetterCode(c)
  {
    forall key: string ensures LettersOnly(key) <==> key != [] && forall c :: c in key ==> LetterCode(c) {
      assert forall i :: 0 <= i < |key| ==> key[i] in key;
    }
    hide LettersOnly, LetterCode;
    if LetterKeys(copy) {
      forall key | Slot(key) in copy ensures LettersOnly(key) {
        var t := Slot(key);
        assert t in copy && t.Slot?;
      }
    } else {
      var t :| t in copy && t.Slot? && !LettersOnly(t.s);
      assert Slot(t.s) in copy;
    }
  }

  /** A parameter's position is that of its first occurrence. */
  lemma {:induction false} IndexOfExactly(params: seq<string>, p: string)
    ensures match IndexOf(params, p)
            case None => p !in params
            case Some(i) => i < |params| && params[i] == p && p !in params[..i]
  {
    if params != [] && params[0] != p {
      IndexOfExactly(params[1..], p);
      match IndexOf(params[1..], p) {
        case None =>
        case Some(i) => assert params[..i + 1] == [params[0]] + params[1..][..i];
      }
    }
  }
}
