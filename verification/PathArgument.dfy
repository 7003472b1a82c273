/** Model-supplied values in a URL path. */
module PathArgument {
  import opened Options
  import opened JsText

  type Byte = b: int | 0 <= b < 256

  // ---------- encodeURIComponent and its inverse (ECMA-262, section 19.2.6) ----------

  const APOSTROPHE := 39 as char
  const BACKSLASH := 92 as char

  /** The characters encodeURIComponent writes as they are. */
  predicate Unreserved(c: char) {
    'A' <= c <= 'Z' || 'a' <= c <= 'z' || '0' <= c <= '9' || c in "-_.!~*()" || c == APOSTROPHE
  }

  function Utf8(c: char): seq<Byte> {
    var n := c as int;
    if n < 0x80 then [n]
    else if n < 0x800 then [0xC0 + n / 0x40, 0x80 + n % 0x40]
    else if n < 0x10000 then [0xE0 + n / 0x1000, 0x80 + n / 0x40 % 0x40, 0x80 + n % 0x40]
    else [0xF0 + n / 0x40000, 0x80 + n / 0x1000 % 0x40, 0x80 + n / 0x40 % 0x40, 0x80 + n % 0x40]
  }

  function HexDigit(n: int): char
    requires 0 <= n < 16
  {
    if n < 10 then '0' + n as char else 'A' + (n - 10) as char
  }

  function PercentByte(b: Byte): string {
    ['%', HexDigit(b / 16), HexDigit(b % 16)]
  }

  function PercentBytes(bs: seq<Byte>): string {
    if bs == [] then [] else PercentByte(bs[0]) + PercentBytes(bs[1..])
  }

  function EncodeChar(c: char): string {
    if Unreserved(c) then [c] else PercentBytes(Utf8(c))
  }

  function Encode(s: string): string {
    if s == [] then [] else EncodeChar(s[0]) + Encode(s[1..])
  }

  function HexValue(c: char): Option<int> {
    if '0' <= c <= '9' then Some(c as int - '0' as int)
    else if 'A' <= c <= 'F' then Some(c as int - 'A' as int + 10)
    else if 'a' <= c <= 'f' then Some(c as int - 'a' as int + 10)
    else None
  }

  /** The octet written at the start of `s` as `%XX`. */
  function Octet(s: string): Option<int> {
    if |s| < 3 || s[0] != '%' || HexValue(s[1]).None? || HexValue(s[2]).None? then None
    else Some(HexValue(s[1]).value * 16 + HexValue(s[2]).value)
  }

  /** `count` continuation octets at the start of `s`, folded onto the bits read so far. */
  function Continuation(s: string, count: nat, bits: int): Option<int>
    decreases count
  {
    if count == 0 then Some(bits)
    else match Octet(s)
      case None => None
      case Some(b) =>
        if 0x80 <= b < 0xC0 then Continuation(s[3..], count - 1, bits * 0x40 + (b - 0x80)) else None
  }

  /** The character written at the start of `s`, and how many characters of `s` it takes. */
  function DecodeOne(s: string): Option<(char, nat)>
    requires s != []
  {
    if s[0] != '%' then Some((s[0], 1))
    else match Octet(s)
      case None => None
      case Some(b) =>
        if b < 0x80 then Some((b as char, 3))
        else if b < 0xC0 || b >= 0xF8 then None
        else
          var extra := if b < 0xE0 then 1 else if b < 0xF0 then 2 else 3;
          var lead := if b < 0xE0 then b - 0xC0 else if b < 0xF0 then b - 0xE0 else b - 0xF0;
          var least := if extra == 1 then 0x80 else if extra == 2 then 0x800 else 0x10000;
          match Continuation(s[3..], extra, lead)
          case None => None
          case Some(n) =>
            if least <= n < 0x110000 && !(0xD800 <= n < 0xE000) then Some((n as char, 3 + 3 * extra)) else None
  }

  /** decodeURIComponent; None is its URIError. */
  function Decode(s: string): Option<string> {
    if s == [] then Some([])
    else match DecodeOne(s)
      case None => None
      case Some((c, n)) =>
        if n == 0 || n > |s| then None
        else match Decode(s[n..])
          case None => None
          case Some(rest) => Some([c] + rest)
  }

  // ---------- The argument expression ----------

  function TrimStart(s: string): string {
    if s != [] && IsSpace(s[0]) then TrimStart(s[1..]) else s
  }

  function TrimEnd(s: string): string {
    if s != [] && IsSpace(s[|s| - 1]) then TrimEnd(s[..|s| - 1]) else s
  }

  function Trim(s: string): string {
    TrimEnd(TrimStart(s))
  }

  /** Matches `/^\.*$/`. */
  predicate AllDots(s: string) {
    forall i :: 0 <= i < |s| ==> s[i] == '.'
  }

  /** `encodeURIComponent(String(v).trim()).replace(/^\.*$/, "_")`. */
  function PathValue(v: string): string {
    var e := Encode(Trim(v));
    if AllDots(e) then "_" else e
  }

  // ---------- Path templates ----------

  datatype Token = Lit(c: char) | Param(name: string)

  predicate IsWord(c: char) {
    'A' <= c <= 'Z' || 'a' <= c <= 'z' || '0' <= c <= '9' || c == '_'
  }

  function WordRun(s: string): (n: nat)
    ensures n <= |s|
  {
    if s != [] && IsWord(s[0]) then 1 + WordRun(s[1..]) else 0
  }

  /** What the replacement of `/\{([A-Za-z0-9_]+)\}/g` sees in a template. */
  function Tokenize(s: string): seq<Token> {
    if s == [] then []
    else
      var n := WordRun(s[1..]);
      if s[0] == '{' && n > 0 && n + 1 < |s| && s[n + 1] == '}'
      then [Param(s[1..n + 1])] + Tokenize(s[n + 2..])
      else [Lit(s[0])] + Tokenize(s[1..])
  }

  type Args = string -> string

  function FillToken(t: Token, args: Args): string {
    match t
    case Lit(c) => [c]
    case Param(name) => PathValue(args(name))
  }

  /** The path a node requests when the model supplies `args`. */
  function Fill(ts: seq<Token>, args: Args): string {
    if ts == [] then [] else FillToken(ts[0], args) + Fill(ts[1..], args)
  }

  lemma FillFirst(ts: seq<Token>, args: Args)
    ensures Fill([], args) == ""
    ensures ts != [] ==> Fill(ts, args) == FillToken(ts[0], args) + Fill(ts[1..], args)
  {
    hide FillToken;
  }

  lemma {:induction false} FillEach(a: seq<Token>, b: seq<Token>, args: Args)
    ensures Fill(a + b, args) == Fill(a, args) + Fill(b, args)
  {
    hide FillToken, Fill;
    FillFirst(a, args);
    FillFirst(a + b, args);
    if a == [] {
      assert a + b == b && "" + Fill(b, args) == Fill(b, args);
    } else {
      assert (a + b)[1..] == a[1..] + b;
      FillEach(a[1..], b, args);
      assert FillToken(a[0], args) + (Fill(a[1..], args) + Fill(b, args)) ==
             (FillToken(a[0], args) + Fill(a[1..], args)) + Fill(b, args);
    }
  }

  lemma TokenFilled(t: Token, args: Args)
    ensures Fill([t], args) == if t.Lit? then [t.c] else PathValue(args(t.name))
  {
    hide PathValue, Fill;
    FillFirst([t], args);
    assert [t][1..] == [] && FillToken(t, args) + "" == FillToken(t, args);
  }

  /** Every literal of a path stands as it is and every parameter as its value, each in its place. */
  lemma FillExactly(before: seq<Token>, t: Token, after: seq<Token>, args: Args)
    ensures Fill([], args) == ""
    ensures Fill(before + [t] + after, args) ==
            Fill(before, args) + (if t.Lit? then [t.c] else PathValue(args(t.name))) + Fill(after, args)
  {
    hide Fill, PathValue;
    FillFirst([], args);
    FillEach(before + [t], after, args);
    FillEach(before, [t], args);
    TokenFilled(t, args);
  }

  /** The tokens between slashes; `open` holds those of the segment being read. */
  function SplitTokens(open: seq<Token>, ts: seq<Token>): (r: seq<seq<Token>>)
    ensures |r| > 0
    decreases |ts|
  {
    if ts == [] then [open]
    else if ts[0] == Lit('/') then [open] + SplitTokens([], ts[1..])
    else SplitTokens(open + [ts[0]], ts[1..])
  }

  function TokenSegments(ts: seq<Token>): (r: seq<seq<Token>>)
    ensures |r| > 0
  {
    SplitTokens([], ts)
  }

  function FillAll(segs: seq<seq<Token>>, args: Args): seq<string> {
    seq(|segs|, i requires 0 <= i < |segs| => Fill(segs[i], args))
  }

  // ---------- What a template is read as ----------

  /** The template with these tokens. */
  function Written(ts: seq<Token>): string {
    if ts == [] then [] else WrittenToken(ts[0]) + Written(ts[1..])
  }

  function WrittenToken(t: Token): string {
    match t
    case Lit(c) => [c]
    case Param(name) => "{" + name + "}"
  }

  /** The codes of the ASCII digits, capitals, underscore and small letters. */
  predicate WordCode(n: int) {
    48 <= n <= 57 || 65 <= n <= 90 || n == 95 || 97 <= n <= 122
  }

  /** A parameter's name is a word. */
  predicate Named(t: Token) {
    t.Param? ==> t.name != [] && forall k :: 0 <= k < |t.name| ==> WordCode(t.name[k] as int)
  }

  /** The literals from `i` to `j` spell a word in braces. */
  predicate SpellsParam(ts: seq<Token>, i: nat, j: nat) {
    && i + 1 < j < |ts| && ts[i] == Lit('{') && ts[j] == Lit('}')
    && forall k :: i < k < j ==> ts[k].Lit? && WordCode(ts[k].c as int)
  }

  /** Tokens a template can be read as. */
  ghost predicate WellRead(ts: seq<Token>) {
    (forall k :: 0 <= k < |ts| ==> Named(ts[k])) && forall i: nat, j: nat :: !SpellsParam(ts, i, j)
  }

  lemma WordRunIs(s: string, n: nat)
    requires n <= |s| && forall k :: 0 <= k < n ==> WordCode(s[k] as int)
    requires n < |s| ==> !WordCode(s[n] as int)
    ensures WordRun(s) == n
    decreases |s|
  {
    if n > 0 {
      assert IsWord(s[0]) <==> WordCode(s[0] as int);
      WordRunIs(s[1..], n - 1);
    } else if s != [] {
      assert IsWord(s[0]) <==> WordCode(s[0] as int);
    }
  }

  lemma {:induction false} WordRunWords(s: string)
    ensures forall k :: 0 <= k < WordRun(s) ==> WordCode(s[k] as int)
  {
    if s != [] {
      assert IsWord(s[0]) <==> WordCode(s[0] as int);
      WordRunWords(s[1..]);
      forall k | 0 <= k < WordRun(s) ensures WordCode(s[k] as int) { if k > 0 { assert s[k] == s[1..][k - 1]; } }
    }
  }

  lemma WrittenCons(t: Token, ts: seq<Token>)
    ensures Written([t] + ts) == WrittenToken(t) + Written(ts)
  {
    assert ([t] + ts)[1..] == ts;
  }

  /** A parameter in braces is at the front of the template. */
  predicate ParamFirst(s: string, n: nat) {
    n > 0 && n + 1 < |s| && s[0] == '{' && s[n + 1] == '}'
  }

  lemma Reads(path: string)
    requires path != []
    ensures var n := WordRun(path[1..]);
            Tokenize(path) == if ParamFirst(path, n) then [Param(path[1..n + 1])] + Tokenize(path[n + 2..])
                              else [Lit(path[0])] + Tokenize(path[1..])
  {
  }

  lemma ParamSplits(s: string, n: nat)
    requires ParamFirst(s, n)
    ensures s == WrittenToken(Param(s[1..n + 1])) + s[n + 2..]
  {
  }

  /** No character of a template is lost, moved or added by reading it. */
  lemma {:induction false} ReadsBack(path: string)
    ensures Written(Tokenize(path)) == path
    decreases |path|
  {
    if path != [] {
      hide Tokenize, WordRun, Written, ParamFirst;
      Reads(path);
      var n := WordRun(path[1..]);
      if ParamFirst(path, n) {
        ParamSplits(path, n);
        assert n + 2 <= |path| by { ParamFits(path, n); }
        ReadsBack(path[n + 2..]);
        WrittenCons(Param(path[1..n + 1]), Tokenize(path[n + 2..]));
      } else {
        ReadsBack(path[1..]);
        WrittenCons(Lit(path[0]), Tokenize(path[1..]));
        assert path == [path[0]] + path[1..];
      }
    }
  }

  lemma ParamFits(s: string, n: nat)
    requires ParamFirst(s, n)
    ensures 0 < n && n + 2 <= |s|
  {
  }

  lemma {:induction false} LiteralsWritten(ts: seq<Token>, m: nat)
    requires m <= |ts| && forall k :: 0 <= k < m ==> ts[k].Lit?
    ensures |Written(ts)| >= m && forall k :: 0 <= k < m ==> Written(ts)[k] == ts[k].c
  {
    if m > 0 {
      LiteralsWritten(ts[1..], m - 1);
      var s := Written(ts);
      assert s == [ts[0].c] + Written(ts[1..]);
      forall k | 0 <= k < m ensures s[k] == ts[k].c { if k > 0 { assert s[k] == Written(ts[1..])[k - 1]; } }
    }
  }

  lemma {:induction false} TokensWellRead(path: string)
    ensures WellRead(Tokenize(path))
    decreases |path|
  {
    var ts := Tokenize(path);
    if path != [] {
      var n := WordRun(path[1..]);
      WordRunWords(path[1..]);
      var param := path[0] == '{' && n > 0 && n + 1 < |path| && path[n + 1] == '}';
      var rest := if param then path[n + 2..] else path[1..];
      TokensWellRead(rest);
      assert ts[1..] == Tokenize(rest);
      hide Tokenize, WordRun, WordCode;
      FirstNamed(path, ts[0], n, param);
      forall k | 0 <= k < |ts| ensures Named(ts[k]) { if k > 0 { assert ts[k] == ts[1..][k - 1]; } }
      forall i: nat, j: nat ensures !SpellsParam(ts, i, j) {
        if SpellsParam(ts, i, j) {
          if i == 0 {
            NotSpeltFirst(path, j);
          } else {
            SpelledLater(ts, i, j);
          }
        }
      }
    }
  }

  lemma FirstNamed(path: string, t: Token, n: nat, param: bool)
    requires path != [] && n < |path| && forall k :: 0 <= k < n ==> WordCode(path[1..][k] as int)
    requires if param then n > 0 && t == Param(path[1..n + 1]) else t == Lit(path[0])
    ensures Named(t)
  {
    hide WordCode;
    if param {
      forall k | 0 <= k < n ensures WordCode(t.name[k] as int) { assert t.name[k] == path[1..][k]; }
    }
  }

  lemma SpelledLater(ts: seq<Token>, i: nat, j: nat)
    requires SpellsParam(ts, i, j) && i > 0
    ensures SpellsParam(ts[1..], i - 1, j - 1)
  {
    hide WordCode;
    forall k | i - 1 < k < j - 1 ensures ts[1..][k].Lit? && WordCode(ts[1..][k].c as int) {
      assert ts[1..][k] == ts[k + 1];
    }
  }

  lemma BraceIsNoWord()
    ensures !WordCode('}' as int) && !WordCode('{' as int)
  {
  }

  lemma NotSpeltFirst(path: string, j: nat)
    ensures !SpellsParam(Tokenize(path), 0, j)
  {
    var ts := Tokenize(path);
    ReadsBack(path);
    hide WordCode;
    if SpellsParam(ts, 0, j) {
      LiteralsWritten(ts, j + 1);
      forall k | 0 <= k < j - 1 ensures WordCode(path[1..][k] as int) { assert path[1..][k] == ts[k + 1].c; }
      BraceIsNoWord();
      assert path[1..][j - 1] == path[j] == '}';
      WordRunIs(path[1..], j - 1);
      assert false;
    }
  }

  lemma ParamIsRead(name: string, rest: string)
    requires Named(Param(name))
    ensures Tokenize(WrittenToken(Param(name)) + rest) == [Param(name)] + Tokenize(rest)
  {
    hide Tokenize, WordRun;
    var s := "{" + name + "}" + rest;
    var n := |name|;
    forall k | 0 <= k < n ensures WordCode(s[1..][k] as int) { assert s[1..][k] == name[k]; }
    assert s[1..][n] == '}' && s[n + 1] == '}';
    WordRunIs(s[1..], n);
    assert s[1..n + 1] == name && s[n + 2..] == rest;
    Reads(s);
  }

  lemma LiteralIsRead(c: char, ts: seq<Token>)
    requires WellRead([Lit(c)] + ts)
    ensures Tokenize([c] + Written(ts)) == [Lit(c)] + Tokenize(Written(ts))
  {
    hide Tokenize, WordRun, Named, WordCode;
    var s, rest := [c] + Written(ts), Written(ts);
    assert s[1..] == rest;
    Reads(s);
    var n := WordRun(rest);
    if ParamFirst(s, n) {
      WordRunWords(rest);
      assert rest[n] == s[n + 1];
      forall k | 0 <= k < |ts| ensures Named(ts[k]) { assert ts[k] == ([Lit(c)] + ts)[k + 1]; }
      SpeltByLiterals(ts, n);
      assert ([Lit(c)] + ts)[1..] == ts;
      SpeltOut([Lit(c)] + ts, n);
    }
  }

  lemma {:induction false} WrittenIsRead(ts: seq<Token>)
    requires WellRead(ts)
    ensures Tokenize(Written(ts)) == ts
  {
    hide Tokenize, WordCode;
    if ts == [] {
      NothingRead();
    } else {
      TailWellRead(ts);
      WrittenIsRead(ts[1..]);
      assert ts == [ts[0]] + ts[1..];
      WrittenCons(ts[0], ts[1..]);
      match ts[0]
      case Param(name) =>
        assert Named(ts[0]);
        ParamIsRead(name, Written(ts[1..]));
      case Lit(c) => LiteralIsRead(c, ts[1..]);
    }
  }

  lemma NothingRead()
    ensures Tokenize([]) == []
  {
  }

  lemma SpelledInTail(ts: seq<Token>, i: nat, j: nat)
    requires ts != [] && SpellsParam(ts[1..], i, j)
    ensures SpellsParam(ts, i + 1, j + 1)
  {
    hide WordCode;
    forall k | i + 1 < k < j + 1 ensures ts[k].Lit? && WordCode(ts[k].c as int) { assert ts[k] == ts[1..][k - 1]; }
  }

  lemma TailWellRead(ts: seq<Token>)
    requires WellRead(ts) && ts != []
    ensures WellRead(ts[1..])
  {
    hide Named, WordCode;
    var tail := ts[1..];
    forall k | 0 <= k < |tail| ensures Named(tail[k]) { assert tail[k] == ts[k + 1]; }
    forall i: nat, j: nat ensures !SpellsParam(tail, i, j) {
      if SpellsParam(tail, i, j) { SpelledInTail(ts, i, j); }
    }
  }

  /** Word characters up to a closing brace are written by literals only. */
  lemma {:induction false} SpeltByLiterals(ts: seq<Token>, n: nat)
    requires n < |Written(ts)| && Written(ts)[n] == '}'
    requires forall k :: 0 <= k < n ==> WordCode(Written(ts)[k] as int)
    requires forall k :: 0 <= k < |ts| ==> Named(ts[k])
    ensures n < |ts| && ts[n] == Lit('}') && forall k :: 0 <= k < n ==> ts[k].Lit? && WordCode(ts[k].c as int)
    decreases n
  {
    hide WordCode;
    BraceIsNoWord();
    var s, rest := Written(ts), Written(ts[1..]);
    assert ts != [];
    assert s[0] == WrittenToken(ts[0])[0];
    if ts[0].Lit? {
      assert s == [ts[0].c] + rest;
      if n > 0 {
        forall k | 0 <= k < n - 1 ensures WordCode(rest[k] as int) { assert rest[k] == s[k + 1]; }
        SpeltByLiterals(ts[1..], n - 1);
        forall k | 0 <= k < n ensures ts[k].Lit? && WordCode(ts[k].c as int) {
          if k > 0 { assert ts[k] == ts[1..][k - 1]; }
        }
      }
    }
  }

  lemma SpeltOut(ts: seq<Token>, n: nat)
    requires ts != [] && ts[0] == Lit('{') && 0 < n < |ts[1..]| && ts[1..][n] == Lit('}')
    requires forall k :: 0 <= k < n ==> ts[1..][k].Lit? && WordCode(ts[1..][k].c as int)
    ensures SpellsParam(ts, 0, n + 1)
  {
    hide WordCode;
    forall k | 0 < k < n + 1 ensures ts[k].Lit? && WordCode(ts[k].c as int) { assert ts[k] == ts[1..][k - 1]; }
  }

  /** A template reads back as the tokens it was written from exactly when its parameters are named by words and
      no run of its literals spells a word in braces. */
  lemma ReadsAsWrittenExactly(ts: seq<Token>)
    ensures Tokenize(Written(ts)) == ts <==> WellRead(ts)
  {
    hide WellRead;
    if WellRead(ts) { WrittenIsRead(ts); }
    TokensWellRead(Written(ts));
  }

  // ---------- How a URL path is read ----------
  //
  // Two readings matter: the WHATWG URL Standard's path state, where `%2e` is a dot and a backslash a
  // slash, and remove_dot_segments of RFC 3986, section 5.2.4.

  /** The strings between slashes; `open` is the segment being read. */
  function Split(open: string, s: string): (r: seq<string>)
    ensures |r| > 0
    decreases |s|
  {
    if s == [] then [open]
    else if s[0] == '/' then [open] + Split([], s[1..])
    else Split(open + [s[0]], s[1..])
  }

  function Segments(s: string): (r: seq<string>)
    ensures |r| > 0
  {
    Split([], s)
  }

  predicate SingleDot(s: string) {
    s == "." || s == "%2e" || s == "%2E"
  }

  predicate DoubleDot(s: string) {
    || s == ".."
    || (|s| == 4 && ((s[0] == '.' && SingleDot(s[1..])) || (SingleDot(s[..3]) && s[3] == '.')))
    || (|s| == 6 && SingleDot(s[..3]) && SingleDot(s[3..]))
  }

  predicate IsDot(s: string) {
    SingleDot(s) || DoubleDot(s)
  }

  ghost predicate NoDots(segs: seq<string>) {
    forall s :: s in segs ==> !IsDot(s)
  }

  /** Closing one segment in the URL Standard's path state; `last` when no slash follows. */
  function CloseSegment(path: seq<string>, buffer: string, last: bool): seq<string> {
    if DoubleDot(buffer) then
      (if path == [] then [] else path[..|path| - 1]) + if last then [""] else []
    else if SingleDot(buffer) then
      path + if last then [""] else []
    else
      path + [buffer]
  }

  /** The URL Standard's path state over the characters left, for a special scheme such as https. */
  function PathState(path: seq<string>, buffer: string, rest: string): seq<string>
    decreases |rest|
  {
    if rest == [] || rest[0] == '?' || rest[0] == '#' then CloseSegment(path, buffer, true)
    else if rest[0] == '/' || rest[0] == BACKSLASH then PathState(CloseSegment(path, buffer, false), [], rest[1..])
    else PathState(path, buffer + [rest[0]], rest[1..])
  }

  /** The path of `base + f`, where `base` holds the segments of the base URL. */
  function UrlPath(base: seq<string>, f: string): seq<string>
    requires f != [] && f[0] == '/'
  {
    PathState(base, [], f[1..])
  }

  /** The output buffer without its last segment and the slash before it. */
  function DropLast(out: string): string {
    if out == [] then [] else if out[|out| - 1] == '/' then out[..|out| - 1] else DropLast(out[..|out| - 1])
  }

  /** Length of the first path segment, its leading slash included. */
  function FirstSegment(s: string): (n: nat)
    requires s != []
    ensures 0 < n <= |s|
    ensures n < |s| ==> s[n] == '/'
    ensures forall i :: 1 <= i < n ==> s[i] != '/'
  {
    if |s| == 1 || s[1] == '/' then 1 else 1 + FirstSegment(s[1..])
  }

  /** remove_dot_segments, steps 2A to 2E. */
  function RemoveDots(s: string, out: string): string
    decreases |s|
  {
    if s == [] then out
    else if "../" <= s then RemoveDots(s[3..], out)
    else if "./" <= s then RemoveDots(s[2..], out)
    else if "/./" <= s then RemoveDots(s[2..], out)
    else if s == "/." then RemoveDots("/", out)
    else if "/../" <= s then RemoveDots(s[3..], DropLast(out))
    else if s == "/.." then RemoveDots("/", DropLast(out))
    else if s == "." || s == ".." then out
    else var n := FirstSegment(s); RemoveDots(s[n..], out + s[..n])
  }

  // ---------- The promise, and when a template keeps it ----------

  /** No character that ends the path, or that a URL parser takes for a slash. */
  predicate NoSyntax(s: string) {
    '?' !in s && '#' !in s && BACKSLASH !in s
  }

  predicate NoSyntaxTokens(ts: seq<Token>) {
    Lit('?') !in ts && Lit('#') !in ts && Lit(BACKSLASH) !in ts
  }

  /** The filled path is read as exactly the template's segments, wherever it is appended. */
  ghost predicate Confined(ts: seq<Token>, args: Args, base: seq<string>) {
    var f := Fill(ts, args);
    && NoSyntax(f)
    && f != [] && f[0] == '/'
    && Segments(f) == FillAll(TokenSegments(ts), args)
    && UrlPath(base, f) == base + Segments(f)[1..]
    && RemoveDots(f, []) == f
  }

  predicate Literal(ts: seq<Token>) {
    forall t :: t in ts ==> t.Lit?
  }

  function Text(ts: seq<Token>): string
    requires Literal(ts)
  {
    seq(|ts|, i requires 0 <= i < |ts| => assert ts[i] in ts; ts[i].c)
  }

  /** A template somebody can check by reading it. */
  predicate Safe(ts: seq<Token>) {
    && NoSyntaxTokens(ts)
    && forall seg :: seg in TokenSegments(ts) && Literal(seg) ==> !IsDot(Text(seg))
  }

  /** Templates are rooted and write no percent-escape of their own. */
  predicate Plain(ts: seq<Token>) {
    ts != [] && ts[0] == Lit('/') && Lit('%') !in ts
  }

  // ---------- Encoding is undone by the server's decoding ----------

  lemma OctetOfByte(b: Byte, rest: string)
    ensures Octet(PercentByte(b) + rest) == Some(b)
    ensures (PercentByte(b) + rest)[3..] == rest
    ensures (PercentByte(b) + rest)[0] == '%'
  {
    var s := PercentByte(b) + rest;
    assert s[1] == HexDigit(b / 16) && s[2] == HexDigit(b % 16);
    assert b == b / 16 * 16 + b % 16;
  }

  lemma BytesThen(bs: seq<Byte>, rest: string)
    requires bs != []
    ensures PercentBytes(bs) + rest == PercentByte(bs[0]) + (PercentBytes(bs[1..]) + rest)
  {
  }

  lemma {:induction false} PercentBytesLength(bs: seq<Byte>)
    ensures |PercentBytes(bs)| == 3 * |bs|
  {
    if bs != [] { PercentBytesLength(bs[1..]); }
  }

  ghost function Fold(bits: int, bs: seq<int>): int
    decreases bs
  {
    if bs == [] then bits else Fold(bits * 0x40 + (bs[0] - 0x80), bs[1..])
  }

  lemma {:induction false} ContinuationOfBytes(bs: seq<Byte>, rest: string, bits: int)
    requires forall i :: 0 <= i < |bs| ==> 0x80 <= bs[i] < 0xC0
    ensures Continuation(PercentBytes(bs) + rest, |bs|, bits) == Some(Fold(bits, bs))
  {
    if bs != [] {
      BytesThen(bs, rest);
      OctetOfByte(bs[0], PercentBytes(bs[1..]) + rest);
      ContinuationOfBytes(bs[1..], rest, bits * 0x40 + (bs[0] - 0x80));
    }
  }

  /** The continuation octets of a character restore its code point. */
  lemma FoldUtf8(c: char)
    requires c as int >= 0x80
    ensures var bs := Utf8(c);
            var lead := if |bs| == 2 then bs[0] - 0xC0 else if |bs| == 3 then bs[0] - 0xE0 else bs[0] - 0xF0;
            Fold(lead, bs[1..]) == c as int
  {
    var n, bs := c as int, Utf8(c);
    if |bs| == 2 {
      assert bs[1..] == [bs[1]] && bs[1..][1..] == [];
    } else if |bs| == 3 {
      ThreeDigits(n);
      assert bs[1..] == [bs[1], bs[2]];
      FoldTwo(bs[0] - 0xE0, bs[1], bs[2]);
    } else {
      ThreeDigits(n);
      ThreeDigits(n / 0x40);
      assert n / 0x40000 == n / 0x40 / 0x1000 && n / 0x1000 == n / 0x40 / 0x40;
      assert bs[1..] == [bs[1], bs[2], bs[3]] && bs[1..][1..] == [bs[2], bs[3]];
      FoldTwo((bs[0] - 0xF0) as int * 0x40 + (bs[1] - 0x80), bs[2], bs[3]);
    }
  }

  lemma ThreeDigits(n: int)
    ensures (n / 0x1000 * 0x40 + n / 0x40 % 0x40) * 0x40 + n % 0x40 == n
    ensures n / 0x1000 * 0x40 + n / 0x40 % 0x40 == n / 0x40
  {
  }

  lemma FoldTwo(bits: int, x: int, y: int)
    ensures Fold(bits, [x, y]) == (bits * 0x40 + (x - 0x80)) * 0x40 + (y - 0x80)
  {
    assert [x, y][1..] == [y];
    assert Fold(bits, [x, y]) == Fold(bits * 0x40 + (x - 0x80), [y]);
  }

  lemma DecodeMultiByte(c: char, s: string, tail: string)
    requires c as int >= 0x80
    requires s != [] && s[0] == '%' && |s| >= 3 && s[3..] == tail
    requires Octet(s) == Some(Utf8(c)[0])
    requires var bs := Utf8(c);
             Continuation(tail, |bs| - 1,
               if |bs| == 2 then bs[0] - 0xC0 else if |bs| == 3 then bs[0] - 0xE0 else bs[0] - 0xF0) == Some(c as int)
    ensures DecodeOne(s) == Some((c, 3 * |Utf8(c)|))
  {
  }

  lemma DecodeEncodedChar(c: char, rest: string)
    ensures EncodeChar(c) + rest != []
    ensures DecodeOne(EncodeChar(c) + rest) == Some((c, |EncodeChar(c)|))
  {
    var s := EncodeChar(c) + rest;
    if Unreserved(c) {
      assert s[0] == c;
    } else {
      var bs := Utf8(c);
      var tail := PercentBytes(bs[1..]) + rest;
      PercentBytesLength(bs);
      BytesThen(bs, rest);
      OctetOfByte(bs[0], tail);
      if |bs| > 1 {
        var lead := if |bs| == 2 then bs[0] - 0xC0 else if |bs| == 3 then bs[0] - 0xE0 else bs[0] - 0xF0;
        ContinuationOfBytes(bs[1..], rest, lead);
        FoldUtf8(c);
        DecodeMultiByte(c, s, tail);
      }
    }
  }

  lemma {:induction false} DecodeEncode(s: string)
    ensures Decode(Encode(s)) == Some(s)
  {
    if s != [] {
      var rest := Encode(s[1..]);
      DecodeEncodedChar(s[0], rest);
      assert |EncodeChar(s[0])| > 0 by { if !Unreserved(s[0]) { PercentBytesLength(Utf8(s[0])); } }
      assert (EncodeChar(s[0]) + rest)[|EncodeChar(s[0])|..] == rest;
      DecodeEncode(s[1..]);
      assert s == [s[0]] + s[1..];
    }
  }

  lemma AllDotsConcat(a: string, b: string)
    ensures AllDots(a + b) <==> AllDots(a) && AllDots(b)
  {
    assert forall i :: 0 <= i < |a| ==> (a + b)[i] == a[i];
    assert forall i :: 0 <= i < |b| ==> (a + b)[|a| + i] == b[i];
  }

  lemma {:induction false} AllDotsEncode(s: string)
    ensures AllDots(Encode(s)) <==> AllDots(s)
  {
    if s != [] {
      AllDotsEncode(s[1..]);
      AllDotsConcat(EncodeChar(s[0]), Encode(s[1..]));
      assert s == [s[0]] + s[1..];
      AllDotsConcat([s[0]], s[1..]);
      if !Unreserved(s[0]) { assert EncodeChar(s[0])[0] == '%'; }
      assert AllDots(EncodeChar(s[0])) <==> s[0] == '.' by {
        assert EncodeChar(s[0])[0] == '.' <==> s[0] == '.';
      }
    }
  }

  /** `t` is the value without the white space round it. */
  ghost predicate Trimmed(v: string, a: string, t: string, b: string) {
    && v == a + t + b && Blank(a) && Blank(b)
    && (t != [] ==> !IsSpace(t[0]) && !IsSpace(t[|t| - 1]))
  }

  lemma {:induction false} StartTrimmed(v: string) returns (a: string)
    ensures v == a + TrimStart(v) && Blank(a) && (TrimStart(v) != [] ==> !IsSpace(TrimStart(v)[0]))
  {
    if v != [] && IsSpace(v[0]) {
      a := StartTrimmed(v[1..]);
      a := [v[0]] + a;
    } else {
      a := [];
    }
  }

  lemma {:induction false} EndTrimmed(v: string) returns (b: string)
    ensures v == TrimEnd(v) + b && Blank(b) && (TrimEnd(v) != [] ==> !IsSpace(TrimEnd(v)[|TrimEnd(v)| - 1]))
  {
    if v != [] && IsSpace(v[|v| - 1]) {
      b := EndTrimmed(v[..|v| - 1]);
      b := b + [v[|v| - 1]];
    } else {
      b := [];
    }
  }

  /** The route parameter arrives as the value without the white space round it, or as `_` when that is empty or
      all dots. */
  lemma ArgumentArrives(v: string) returns (a: string, t: string, b: string)
    ensures Trimmed(v, a, t, b)
    ensures Decode(PathValue(v)) == Some(if forall c :: c in t ==> c == '.' then "_" else t)
  {
    hide IsSpace, Decode, PathValue, TrimStart, TrimEnd, Trimmed, Trim, AllDots;
    a, b := TrimmedIs(v);
    t := Trim(v);
    ArrivesTrimmed(v);
    OnlyDots(t);
  }

  lemma OnlyDots(s: string)
    ensures AllDots(s) <==> forall c :: c in s ==> c == '.'
  {
    if forall c :: c in s ==> c == '.' {
      forall i | 0 <= i < |s| ensures s[i] == '.' { assert s[i] in s; }
    }
  }

  lemma TrimmedIs(v: string) returns (a: string, b: string)
    ensures Trimmed(v, a, Trim(v), b)
  {
    hide IsSpace, TrimStart, TrimEnd, Blank;
    a := StartTrimmed(v);
    b := EndTrimmed(TrimStart(v));
    var t := Trim(v);
    assert TrimStart(v) == t + b;
    assert t != [] ==> t[0] == TrimStart(v)[0];
  }

  lemma ArrivesTrimmed(v: string)
    ensures Decode(PathValue(v)) == Some(if AllDots(Trim(v)) then "_" else Trim(v))
  {
    DecodeEncode(Trim(v));
    AllDotsEncode(Trim(v));
    DecodeEncode("_");
    assert Encode("_") == "_" by { assert Encode(""[..]) == []; }
  }

  // ---------- What a value can put into a path ----------

  /** What encodeURIComponent can emit: nothing a URL parser takes for syntax. */
  predicate Inert(s: string) {
    '/' !in s && NoSyntax(s)
  }

  lemma {:induction false} EncodeInert(s: string)
    ensures Inert(Encode(s))
  {
    if s != [] {
      EncodeInert(s[1..]);
      if !Unreserved(s[0]) { PercentBytesInert(Utf8(s[0])); }
    }
  }

  lemma {:induction false} PercentBytesInert(bs: seq<Byte>)
    ensures Inert(PercentBytes(bs))
  {
    if bs != [] { PercentBytesInert(bs[1..]); }
  }

  lemma PathValueInert(v: string)
    ensures Inert(PathValue(v)) && PathValue(v) != []
  {
    EncodeInert(Trim(v));
  }

  /** Made of dots only, counting `%2e` as one: the shape every dot segment has. */
  predicate Dotted(s: string) {
    || s == []
    || (s[0] == '.' && Dotted(s[1..]))
    || (|s| >= 3 && SingleDot(s[..3]) && Dotted(s[3..]))
  }

  lemma DotSegmentsAreDotted(s: string)
    requires IsDot(s)
    ensures Dotted(s)
  {
    if |s| == 4 {
      assert s[1..][3..] == [] && s[3..][1..] == [];
    } else if |s| == 6 {
      assert s[3..][..3] == s[3..] && s[3..][3..] == [];
    } else if |s| == 2 {
      assert s[1..][1..] == [];
    }
  }

  /** No character but the dot is written with a dotted start. */
  lemma FirstEncodedChar(c: char, tail: string)
    requires Dotted(EncodeChar(c) + tail)
    ensures c == '.' && Dotted(tail)
  {
    var t := EncodeChar(c) + tail;
    if Unreserved(c) {
      assert t[0] == c && t[1..] == tail;
    } else {
      BytesThen(Utf8(c), tail);
    }
  }

  /** Only dots encode to something dotted. */
  lemma {:induction false} DottedEncoding(s: string, rest: string)
    requires Dotted(Encode(s) + rest)
    ensures AllDots(s)
  {
    if s != [] {
      hide Dotted, EncodeChar;
      var tail := Encode(s[1..]) + rest;
      assert Encode(s) + rest == EncodeChar(s[0]) + tail;
      FirstEncodedChar(s[0], tail);
      DottedEncoding(s[1..], rest);
    }
  }

  /** A segment that holds a parameter is never a dot segment. */
  lemma {:induction false} ParameterSegmentNotDotted(ts: seq<Token>, args: Args)
    requires Lit('%') !in ts && !Literal(ts)
    ensures !Dotted(Fill(ts, args))
  {
    var rest := Fill(ts[1..], args);
    assert ts == [ts[0]] + ts[1..];
    if ts[0].Lit? {
      ParameterSegmentNotDotted(ts[1..], args);
      DottedTail(ts[0].c, rest);
    } else {
      ValueNotDotted(args(ts[0].name), rest);
    }
  }

  lemma DottedTail(c: char, rest: string)
    requires c != '%' && !Dotted(rest)
    ensures !Dotted([c] + rest)
  {
    assert ([c] + rest)[1..] == rest;
    assert ([c] + rest)[0] == c;
  }

  lemma ValueNotDotted(v: string, rest: string)
    ensures !Dotted(PathValue(v) + rest)
  {
    AllDotsEncode(Trim(v));
    if Dotted(PathValue(v) + rest) {
      if !AllDots(Trim(v)) {
        DottedEncoding(Trim(v), rest);
      }
    }
  }

  lemma {:induction false} FillLiteral(ts: seq<Token>, args: Args)
    requires Literal(ts)
    ensures Fill(ts, args) == Text(ts)
  {
    if ts != [] {
      assert ts[0] in ts;
      FillLiteral(ts[1..], args);
      assert Text(ts) == [ts[0].c] + Text(ts[1..]);
    }
  }

  // ---------- Segments of the filled path ----------

  lemma {:induction false} SplitPrefix(open: string, p: string, s: string)
    requires '/' !in p
    ensures Split(open, p + s) == Split(open + p, s)
    decreases |p|
  {
    if p == [] {
      assert p + s == s && open + p == open;
    } else {
      assert (p + s)[0] == p[0] && (p + s)[1..] == p[1..] + s;
      SplitPrefix(open + [p[0]], p[1..], s);
      assert open + [p[0]] + p[1..] == open + p;
    }
  }

  lemma {:induction false} FillAppend(ts: seq<Token>, t: Token, args: Args)
    ensures Fill(ts + [t], args) == Fill(ts, args) + FillToken(t, args)
  {
    if ts == [] {
      assert [t][1..] == [] && [] + [t] == [t];
    } else {
      assert (ts + [t])[1..] == ts[1..] + [t];
      FillAppend(ts[1..], t, args);
    }
  }

  lemma FillAllCons(seg: seq<Token>, segs: seq<seq<Token>>, args: Args)
    ensures FillAll([seg] + segs, args) == [Fill(seg, args)] + FillAll(segs, args)
  {
  }

  lemma {:induction false} SplitOfFill(open: seq<Token>, ts: seq<Token>, args: Args)
    ensures Split(Fill(open, args), Fill(ts, args)) == FillAll(SplitTokens(open, ts), args)
    decreases |ts|
  {
    if ts != [] {
      var rest := Fill(ts[1..], args);
      if ts[0] == Lit('/') {
        assert (['/'] + rest)[1..] == rest;
        SplitOfFill([], ts[1..], args);
        var r := SplitTokens([], ts[1..]);
        FillAllCons(open, r, args);
      } else {
        var p := FillToken(ts[0], args);
        if ts[0].Param? { PathValueInert(args(ts[0].name)); }
        SplitPrefix(Fill(open, args), p, rest);
        FillAppend(open, ts[0], args);
        SplitOfFill(open + [ts[0]], ts[1..], args);
      }
    }
  }

  /** Filling never changes where the segments are. */
  lemma SegmentsOfFill(ts: seq<Token>, args: Args)
    ensures Segments(Fill(ts, args)) == FillAll(TokenSegments(ts), args)
  {
    SplitOfFill([], ts, args);
  }

  lemma {:induction false} FillInert(ts: seq<Token>, args: Args)
    requires NoSyntaxTokens(ts)
    ensures NoSyntax(Fill(ts, args))
  {
    if ts != [] {
      assert ts == [ts[0]] + ts[1..];
      FillInert(ts[1..], args);
      if ts[0].Param? { PathValueInert(args(ts[0].name)); }
    }
  }

  lemma {:induction false} SegmentTokens(open: seq<Token>, ts: seq<Token>, seg: seq<Token>)
    requires seg in SplitTokens(open, ts)
    ensures forall t :: t in seg ==> t in open || t in ts
    decreases |ts|
  {
    if ts != [] {
      if ts[0] == Lit('/') {
        if seg != open { SegmentTokens([], ts[1..], seg); }
      } else {
        SegmentTokens(open + [ts[0]], ts[1..], seg);
      }
    }
  }

  /** In a safe plain template no filled segment is a dot segment. */
  lemma NoDotSegment(ts: seq<Token>, args: Args, i: nat)
    requires Plain(ts) && Safe(ts) && i < |TokenSegments(ts)|
    ensures !IsDot(Fill(TokenSegments(ts)[i], args))
  {
    var seg := TokenSegments(ts)[i];
    SegmentTokens([], ts, seg);
    if Literal(seg) {
      FillLiteral(seg, args);
    } else {
      ParameterSegmentNotDotted(seg, args);
      if IsDot(Fill(seg, args)) { DotSegmentsAreDotted(Fill(seg, args)); }
    }
  }

  // ---------- Both readings leave dot-free paths alone ----------

  lemma {:induction false} PathStateKeeps(path: seq<string>, buffer: string, rest: string)
    requires NoSyntax(rest)
    requires NoDots(Split(buffer, rest))
    ensures PathState(path, buffer, rest) == path + Split(buffer, rest)
    decreases |rest|
  {
    if rest == [] {
      assert buffer in Split(buffer, rest);
    } else {
      assert rest == [rest[0]] + rest[1..];
      if rest[0] == '/' {
        assert buffer in Split(buffer, rest);
        PathStateKeeps(path + [buffer], [], rest[1..]);
        assert path + [buffer] + Split([], rest[1..]) == path + Split(buffer, rest);
      } else {
        PathStateKeeps(path, buffer + [rest[0]], rest[1..]);
      }
    }
  }

  lemma SplitAtSlash(open: string, s: string)
    ensures s == [] ==> Split(open, s) == [open]
    ensures s != [] && s[0] == '/' ==> Split(open, s) == [open] + Split([], s[1..])
  {
  }

  lemma FirstSegmentParts(s: string, n: nat)
    requires s != [] && n == FirstSegment(s)
    ensures 1 <= n <= |s| && s[1..] == s[1..n] + s[n..] && '/' !in s[1..n]
    ensures s[n..] != [] ==> s[n..][0] == '/'
  {
    hide FirstSegment;
    CutAt(s, n);
    assert forall i :: 0 <= i < n - 1 ==> s[1..n][i] == s[i + 1];
  }

  lemma CutAt(s: string, n: nat)
    requires 1 <= n <= |s|
    ensures s[1..] == s[1..n] + s[n..]
  {
  }

  lemma SegmentsFrom(s: string, n: nat)
    requires s != [] && s[0] == '/' && n == FirstSegment(s)
    ensures s[n..] == [] ==> Segments(s) == [[], s[1..n]]
    ensures s[n..] != [] ==> Segments(s) == [[], s[1..n]] + Segments(s[n..])[1..]
  {
    hide Split, FirstSegment, Segments;
    FirstSegmentParts(s, n);
    SegmentsOfParts(s, s[1..n], s[n..]);
  }

  lemma SegmentsOfParts(s: string, p: string, rest: string)
    requires s != [] && s[0] == '/' && s[1..] == p + rest && '/' !in p && (rest != [] ==> rest[0] == '/')
    ensures rest == [] ==> Segments(s) == [[], p]
    ensures rest != [] ==> Segments(s) == [[], p] + Segments(rest)[1..]
  {
    hide Split;
    SplitAtSlash([], s);
    SplitPrefix([], p, rest);
    assert [] + p == p;
    SplitAtSlash(p, rest);
    SplitAtSlash([], rest);
  }

  lemma DotPrefixes(s: string, n: nat)
    requires s != [] && s[0] == '/' && n == FirstSegment(s)
    ensures "/./" <= s || s == "/." ==> s[1..n] == "."
    ensures "/../" <= s || s == "/.." ==> s[1..n] == ".."
  {
    if "/./" <= s {
      assert s[1] == '.' && s[2] == '/';
    } else if "/../" <= s {
      assert s[1] == '.' && s[2] == '.' && s[3] == '/';
      assert n == 3;
    }
  }

  /** A first segment that is no dot segment is moved to the output as it is. */
  lemma SegmentMoves(s: string, out: string, n: nat)
    requires s != [] && s[0] == '/' && n == FirstSegment(s)
    requires !IsDot(s[1..n])
    ensures RemoveDots(s, out) == RemoveDots(s[n..], out + s[..n])
  {
    DotPrefixes(s, n);
  }

  lemma FirstAndRest(s: string, n: nat)
    requires s != [] && s[0] == '/' && n == FirstSegment(s)
    requires NoDots(Segments(s))
    ensures !IsDot(s[1..n]) && NoDots(Segments(s[n..]))
  {
    hide Split, IsDot, FirstSegment;
    var segs, rest := Segments(s), s[n..];
    SegmentsFrom(s, n);
    SplitAtSlash([], rest);
    assert s[1..n] == segs[1] && segs[1] in segs && segs[0] in segs;
    forall x | x in Segments(rest) ensures x in segs {
      if rest != [] && x != segs[0] { assert x in Segments(rest)[1..]; }
    }
  }

  lemma {:induction false} RemoveDotsKeeps(s: string, out: string)
    requires s != [] ==> s[0] == '/'
    requires NoDots(Segments(s))
    ensures RemoveDots(s, out) == out + s
    decreases |s|
  {
    hide RemoveDots, FirstSegment, NoDots, IsDot, Segments;
    if s == [] {
      NothingToRemove(out);
    } else {
      var n := FirstSegment(s);
      FirstAndRest(s, n);
      SegmentMoves(s, out, n);
      RemoveDotsKeeps(s[n..], out + s[..n]);
      assert out + s[..n] + s[n..] == out + s;
    }
  }

  lemma NothingToRemove(out: string)
    ensures RemoveDots([], out) == out + []
  {
  }

  // ---------- Confinement ----------

  /** A filled path without dot segments or URL syntax is read as it stands. */
  lemma DotFreeConfines(ts: seq<Token>, args: Args, base: seq<string>)
    requires ts != [] && ts[0] == Lit('/') && NoSyntaxTokens(ts)
    requires forall i :: 0 <= i < |TokenSegments(ts)| ==> !IsDot(Fill(TokenSegments(ts)[i], args))
    ensures Confined(ts, args, base)
  {
    var f := Fill(ts, args);
    FillInert(ts, args);
    SegmentsOfFill(ts, args);
    forall s | s in Segments(f) ensures !IsDot(s) {
      var i :| 0 <= i < |Segments(f)| && Segments(f)[i] == s;
      assert !IsDot(Fill(TokenSegments(ts)[i], args));
    }
    assert f == ['/'] + Fill(ts[1..], args);
    UrlPathKeeps(base, f);
    RemoveDotsKeeps(f, []);
    assert [] + f == f;
  }

  /** No value can change which route is called, through a safe template: none adds, drops or rewrites a
      segment, starts a query or a fragment, or walks out of its parent. */
  lemma SafeTemplatesConfine(ts: seq<Token>, args: Args, base: seq<string>)
    requires Plain(ts) && Safe(ts)
    ensures Confined(ts, args, base)
  {
    hide IsDot, Confined;
    forall i | 0 <= i < |TokenSegments(ts)| ensures !IsDot(Fill(TokenSegments(ts)[i], args)) {
      NoDotSegment(ts, args, i);
    }
    DotFreeConfines(ts, args, base);
  }

  lemma UrlPathKeeps(base: seq<string>, f: string)
    requires f != [] && f[0] == '/' && NoSyntax(f)
    requires NoDots(Segments(f))
    ensures UrlPath(base, f) == base + Segments(f)[1..]
  {
    SplitAtSlash([], f);
    assert f == ['/'] + f[1..];
    PathStateKeeps(base, [], f[1..]);
  }

  /** What the path state outputs beyond its starting path is never a dot segment. */
  lemma {:induction false} PathStateHasNoDots(path: seq<string>, buffer: string, rest: string, s: string)
    requires s in PathState(path, buffer, rest)
    ensures s in path || !IsDot(s)
    decreases |rest|
  {
    if rest != [] && rest[0] != '?' && rest[0] != '#' {
      if rest[0] == '/' || rest[0] == BACKSLASH {
        PathStateHasNoDots(CloseSegment(path, buffer, false), [], rest[1..], s);
      } else {
        PathStateHasNoDots(path, buffer + [rest[0]], rest[1..], s);
      }
    }
  }

  lemma {:induction false} LiteralsAppear(ts: seq<Token>, args: Args, c: char)
    requires Lit(c) in ts
    ensures c in Fill(ts, args)
  {
    assert ts == [ts[0]] + ts[1..];
    if ts[0] != Lit(c) { LiteralsAppear(ts[1..], args, c); }
  }

  lemma OneConfinedIsSafe(ts: seq<Token>, args: Args)
    requires Plain(ts) && Confined(ts, args, [])
    ensures Safe(ts)
  {
    var f, segs := Fill(ts, args), TokenSegments(ts);
    if Lit('?') in ts { LiteralsAppear(ts, args, '?'); }
    if Lit('#') in ts { LiteralsAppear(ts, args, '#'); }
    if Lit(BACKSLASH) in ts { LiteralsAppear(ts, args, BACKSLASH); }
    forall seg | seg in segs && Literal(seg) ensures !IsDot(Text(seg)) {
      FillLiteral(seg, args);
      var i :| 0 <= i < |segs| && segs[i] == seg;
      assert Segments(f)[i] == Text(seg);
      if i > 0 {
        assert Segments(f)[1..][i - 1] == Text(seg);
        PathStateHasNoDots([], [], f[1..], Text(seg));
      } else {
        assert Text(seg) == [];
      }
    }
  }

  /** A template confines every value exactly when it is safe to begin with. */
  lemma ConfinedExactlyWhenSafe(ts: seq<Token>)
    requires Plain(ts)
    ensures (forall args: Args, base: seq<string> :: Confined(ts, args, base)) <==> Safe(ts)
  {
    if Safe(ts) {
      forall args: Args, base: seq<string> ensures Confined(ts, args, base) {
        SafeTemplatesConfine(ts, args, base);
      }
    }
    if forall args: Args, base: seq<string> :: Confined(ts, args, base) {
      var args: Args := (_: string) => "a";
      assert Confined(ts, args, []);
      OneConfinedIsSafe(ts, args);
    }
  }

  lemma {:induction false} TokensOf(path: string, c: char)
    requires c !in path
    ensures Lit(c) !in Tokenize(path)
    decreases |path|
  {
    if path != [] {
      var n := WordRun(path[1..]);
      TokensOf(path[1..], c);
      if n + 2 <= |path| { TokensOf(path[n + 2..], c); }
    }
  }

  /** `urlFor`: a rooted path template without percent-escapes confines exactly when it is safe. */
  lemma UrlForConfines(path: string)
    requires path != [] && path[0] == '/' && '%' !in path
    ensures (forall args: Args, base: seq<string> :: Confined(Tokenize(path), args, base)) <==> Safe(Tokenize(path))
  {
    TokensOf(path, '%');
    ConfinedExactlyWhenSafe(Tokenize(path));
  }

  /** Why templates may not write a percent sign before a parameter: in `/%2{x}` the value `e`
      completes a dot, and the segment disappears. */
  lemma PercentLiteralsEscape()
    ensures exists ts, args :: |ts| > 0 && ts[0] == Lit('/') && Safe(ts) && !Confined(ts, args, [])
  {
    var ts := [Lit('/'), Lit('%'), Lit('2'), Param("x")];
    var args: Args := (_: string) => "e";
    EscapeFilled(ts, args);
    EscapeRead();
    EscapeLooksSafe(ts);
    NotConfined(ts, args, "/%2e");
  }

  lemma NotConfined(ts: seq<Token>, args: Args, f: string)
    requires f == Fill(ts, args) && f != [] && f[0] == '/'
    requires UrlPath([], f) == [""] && |Segments(f)| == 2 && Segments(f)[1] != ""
    ensures !Confined(ts, args, [])
  {
    hide Fill, UrlPath, RemoveDots, FillAll, Segments;
    assert Segments(f)[1..] == [Segments(f)[1]];
    assert [] + Segments(f)[1..] == Segments(f)[1..];
  }

  lemma EscapeFilled(ts: seq<Token>, args: Args)
    requires ts == [Lit('/'), Lit('%'), Lit('2'), Param("x")] && args("x") == "e"
    ensures Fill(ts, args) == "/%2e"
  {
    assert Encode("e") == "e" by { assert Encode("e"[1..]) == []; }
    var t3, t2, t1 := ts[3..], ts[2..], ts[1..];
    assert Fill(t3, args) == "e" by { assert t3[1..] == []; }
    assert Fill(t2, args) == "2e" by { assert t2[1..] == t3; }
    assert Fill(t1, args) == "%2e" by { assert t1[1..] == t2; }
    assert ts[1..] == t1;
  }

  lemma EscapeRead()
    ensures UrlPath([], "/%2e") == [""]
    ensures |Segments("/%2e")| == 2 && Segments("/%2e")[1] != ""
  {
    EscapeSuffixes();
    assert PathState([], "%2", "e") == PathState([], "%2e", "") == [""];
    assert PathState([], "%", "2e") == PathState([], "%2", "e");
    EscapeSplit();
  }

  lemma EscapeSplit()
    ensures |Segments("/%2e")| == 2 && Segments("/%2e")[1] != ""
  {
    EscapeSuffixes();
    assert "" + ['%'] == "%" && "%" + ['2'] == "%2" && "%2" + ['e'] == "%2e";
    assert Split("%2", "e") == Split("%2e", "");
    assert Split("%", "2e") == Split("%2", "e");
    assert Split("", "%2e") == Split("%", "2e");
    assert Segments("/%2e") == [""] + Split("", "%2e");
  }

  lemma EscapeSuffixes()
    ensures "/%2e"[1..] == "%2e" && "%2e"[1..] == "2e" && "2e"[1..] == "e" && "e"[1..] == ""
  {
  }

  lemma EscapeLooksSafe(ts: seq<Token>)
    requires ts == [Lit('/'), Lit('%'), Lit('2'), Param("x")]
    ensures Safe(ts)
  {
    var t := ts[1..];
    OneSegment([], t);
    assert [] + t == t;
    assert TokenSegments(ts) == [[], t];
    assert Param("x") in t;
    assert Text([]) == "";
  }

  lemma {:induction false} OneSegment(open: seq<Token>, ts: seq<Token>)
    requires Lit('/') !in ts
    ensures SplitTokens(open, ts) == [open + ts]
    decreases |ts|
  {
    if ts != [] {
      OneSegment(open + [ts[0]], ts[1..]);
      assert open + [ts[0]] + ts[1..] == open + ts;
    } else {
      assert open + ts == open;
    }
  }

  // ---------- Templates that write percent signs ----------

  /** What a value can add to a dot segment that the template's own percent sign begins. */
  const PIECES: seq<string> := ["2", "e", "E", "2e", "2E", "e.", "E.", "2e.", "2E."]

  ghost predicate OverPieces(args: Args) {
    forall name :: args(name) in PIECES
  }

  /** None of the nine pieces, whatever parameter takes which, makes a dot of the segment. */
  ghost predicate NoCompletion(seg: seq<Token>) {
    forall args: Args :: OverPieces(args) ==> !IsDot(Fill(seg, args))
  }

  /** Every escape is complete, and none of them is a dot's. */
  predicate NoDotEscape(s: string) {
    forall k :: 0 <= k < |s| && s[k] == '%' ==>
      k + 2 < |s| && !(s[k + 1] == '2' && (s[k + 2] == 'e' || s[k + 2] == 'E'))
  }

  lemma NoDotEscapeConcat(a: string, b: string)
    requires NoDotEscape(a) && NoDotEscape(b)
    ensures NoDotEscape(a + b)
  {
    forall k | 0 <= k < |a + b| && (a + b)[k] == '%'
      ensures k + 2 < |a + b| && !((a + b)[k + 1] == '2' && ((a + b)[k + 2] == 'e' || (a + b)[k + 2] == 'E'))
    {
      if k >= |a| { assert b[k - |a|] == '%'; }
    }
  }

  lemma ByteEscape(b: Byte)
    requires b != 0x2E
    ensures NoDotEscape(PercentByte(b))
  {
  }

  lemma {:induction false} BytesEscape(bs: seq<Byte>)
    requires forall i :: 0 <= i < |bs| ==> bs[i] != 0x2E
    ensures NoDotEscape(PercentBytes(bs))
  {
    if bs != [] {
      ByteEscape(bs[0]);
      BytesEscape(bs[1..]);
      NoDotEscapeConcat(PercentByte(bs[0]), PercentBytes(bs[1..]));
    }
  }

  lemma CharEscape(c: char)
    ensures NoDotEscape(EncodeChar(c))
  {
    if !Unreserved(c) { BytesEscape(Utf8(c)); }
  }

  lemma {:induction false} EncodedEscapes(s: string)
    ensures NoDotEscape(Encode(s))
  {
    if s != [] {
      CharEscape(s[0]);
      EncodedEscapes(s[1..]);
      NoDotEscapeConcat(EncodeChar(s[0]), Encode(s[1..]));
    }
  }

  /** How a dot segment is written. */
  lemma DotChars(d: string, k: nat)
    requires IsDot(d) && k < |d|
    ensures d[k] in ".%2eE"
    ensures d[k] == '%' ==> k + 2 < |d| && d[k + 1] == '2' && (d[k + 2] == 'e' || d[k + 2] == 'E')
    ensures d[k] == '2' ==> k + 1 < |d| && (d[k + 1] == 'e' || d[k + 1] == 'E')
    ensures (d[k] == 'e' || d[k] == 'E') && k + 1 < |d| ==> d[k + 1] == '.' || d[k + 1] == '%'
    ensures (d[k] == 'e' || d[k] == 'E') && k + 1 < |d| && d[k + 1] == '.' ==> k + 2 == |d|
    ensures d[k] == '.' && k + 1 < |d| ==> d[k + 1] == '%' || d == ".."
  {
    if |d| == 4 && d[0] == '.' {
      assert d[1..][0] == d[1] && d[1..][1] == d[2] && d[1..][2] == d[3];
    } else if |d| == 4 {
      assert d[..3][0] == d[0] && d[..3][1] == d[1] && d[..3][2] == d[2];
    } else if |d| == 6 {
      assert d[..3][0] == d[0] && d[..3][1] == d[1] && d[..3][2] == d[2];
      assert d[3..][0] == d[3] && d[3..][1] == d[4] && d[3..][2] == d[5];
    }
  }

  /** A value that stands in a dot segment is one of the pieces. */
  lemma PieceOfDot(a: string, p: string, b: string)
    requires IsDot(a + p + b) && p != [] && !AllDots(p) && NoDotEscape(p)
    ensures p in PIECES
  {
    hide IsDot, PIECES, NoDotEscape, AllDots;
    assert forall k :: 0 <= k < |p| ==> (a + p + b)[|a| + k] == p[k];
    PieceAt(a + p + b, |a|, p);
  }

  lemma PieceAt(d: string, n: nat, p: string)
    requires IsDot(d) && p != [] && !AllDots(p) && NoDotEscape(p)
    requires n + |p| <= |d| && forall k :: 0 <= k < |p| ==> d[n + k] == p[k]
    ensures p in PIECES
  {
    hide IsDot, PIECES;
    DotChars(d, n);
    NoPercent(d, n, p, 0);
    if |p| > 1 {
      assert d[n + 1] == p[1];
      DotChars(d, n + 1);
      NoPercent(d, n, p, 1);
      if |p| > 2 {
        assert d[n + 2] == p[2];
        NoPercent(d, n, p, 2);
        DotChars(d, n + 2);
      }
    }
    PieceShape(p);
  }

  lemma NoPercent(d: string, n: nat, p: string, k: nat)
    requires IsDot(d) && NoDotEscape(p) && k < |p|
    requires n + |p| <= |d| && forall k :: 0 <= k < |p| ==> d[n + k] == p[k]
    ensures p[k] != '%'
  {
    hide IsDot;
    DotChars(d, n + k);
    assert k + 2 < |p| ==> d[n + (k + 1)] == p[k + 1] && d[n + (k + 2)] == p[k + 2];
  }

  lemma PieceShape(p: string)
    ensures |p| == 1 && p[0] in "2eE" ==> p in PIECES
    ensures |p| == 2 && p[0] == '2' && p[1] in "eE" ==> p in PIECES
    ensures |p| == 2 && p[0] in "eE" && p[1] == '.' ==> p in PIECES
    ensures |p| == 3 && p[0] == '2' && p[1] in "eE" && p[2] == '.' ==> p in PIECES
  {
    assert |p| == 1 ==> p == [p[0]];
    assert |p| == 2 ==> p == [p[0], p[1]];
    assert |p| == 3 ==> p == [p[0], p[1], p[2]];
    assert PIECES[0] == "2" && PIECES[1] == "e" && PIECES[2] == "E" && PIECES[3] == "2e" && PIECES[4] == "2E";
    assert PIECES[5] == "e." && PIECES[6] == "E." && PIECES[7] == "2e." && PIECES[8] == "2E.";
  }

  lemma {:induction false} EncodePlain(s: string)
    requires forall k :: 0 <= k < |s| ==> Unreserved(s[k])
    ensures Encode(s) == s
  {
    if s != [] {
      EncodePlain(s[1..]);
      assert s == [s[0]] + s[1..];
    }
  }

  /** A piece goes into the path as it is. */
  lemma PieceIsKept(p: string)
    requires p in PIECES
    ensures PathValue(p) == p
  {
    assert p[0] in "2eE" && p[|p| - 1] in "2eE." && forall k :: 0 <= k < |p| ==> p[k] in "2eE.";
    assert Trim(p) == p;
    EncodePlain(p);
  }

  lemma ConcatFour(a: string, b: string, c: string, d: string)
    ensures a + (b + c + d) == (a + b) + c + d
  {
  }

  lemma {:induction false} FillAround(ts: seq<Token>, args: Args, i: nat)
    requires i < |ts| && ts[i].Param?
    ensures Fill(ts, args) == Fill(ts[..i], args) + PathValue(args(ts[i].name)) + Fill(ts[i + 1..], args)
  {
    if i > 0 {
      FillAround(ts[1..], args, i - 1);
      assert ts[1..][..i - 1] == ts[..i][1..] && ts[1..][i..] == ts[i + 1..];
      var first, head, v, tail :=
        FillToken(ts[0], args), Fill(ts[1..][..i - 1], args), PathValue(args(ts[i].name)), Fill(ts[i + 1..], args);
      ConcatFour(first, head, v, tail);
    } else {
      assert ts[..0] == [] && [] + PathValue(args(ts[i].name)) == PathValue(args(ts[i].name));
    }
  }

  lemma {:induction false} FillAgrees(ts: seq<Token>, args: Args, others: Args)
    requires forall i :: 0 <= i < |ts| && ts[i].Param? ==> PathValue(args(ts[i].name)) == PathValue(others(ts[i].name))
    ensures Fill(ts, args) == Fill(ts, others)
  {
    if ts != [] { FillAgrees(ts[1..], args, others); }
  }

  /** Whatever completes a dot segment, the pieces do as well. */
  lemma PiecesSuffice(seg: seq<Token>, args: Args) returns (others: Args)
    requires IsDot(Fill(seg, args))
    ensures OverPieces(others) && IsDot(Fill(seg, others))
  {
    hide IsDot, Fill, PathValue, NoDotEscape, PIECES;
    forall i | 0 <= i < |seg| && seg[i].Param? ensures PathValue(args(seg[i].name)) in PIECES {
      FillAround(seg, args, i);
      ValueEscapes(args(seg[i].name));
      PieceOfDot(Fill(seg[..i], args), PathValue(args(seg[i].name)), Fill(seg[i + 1..], args));
    }
    others := (name: string) => if PathValue(args(name)) in PIECES then PathValue(args(name)) else "2";
    TwoIsAPiece();
    forall i | 0 <= i < |seg| && seg[i].Param? ensures PathValue(args(seg[i].name)) == PathValue(others(seg[i].name)) {
      PieceIsKept(PathValue(args(seg[i].name)));
    }
    FillAgrees(seg, args, others);
  }

  lemma TwoIsAPiece()
    ensures "2" in PIECES
  {
    assert PIECES[0] == "2";
  }

  lemma NoCompletionNoDot(seg: seq<Token>, args: Args)
    requires NoCompletion(seg)
    ensures !IsDot(Fill(seg, args))
  {
    if IsDot(Fill(seg, args)) {
      var others := PiecesSuffice(seg, args);
    }
  }

  lemma ValueEscapes(v: string)
    ensures PathValue(v) != [] && NoDotEscape(PathValue(v)) && !AllDots(PathValue(v))
  {
    EncodedEscapes(Trim(v));
    assert "_"[0] == '_' && NoDotEscape("_") && !AllDots("_");
    hide NoDotEscape, Encode, Trim;
  }

  /** Every rooted template, percent signs or not: all values are confined exactly when the literals hold
      no URL syntax and the nine pieces complete no dot segment. */
  lemma ConfinedExactly(ts: seq<Token>)
    requires ts != [] && ts[0] == Lit('/')
    ensures (forall args: Args, base: seq<string> :: Confined(ts, args, base)) <==>
            NoSyntaxTokens(ts) && forall i :: 0 <= i < |TokenSegments(ts)| ==> NoCompletion(TokenSegments(ts)[i])
  {
    var segs := TokenSegments(ts);
    if NoSyntaxTokens(ts) && forall i :: 0 <= i < |segs| ==> NoCompletion(segs[i]) {
      forall args: Args, base: seq<string> ensures Confined(ts, args, base) {
        forall i | 0 <= i < |segs| ensures !IsDot(Fill(segs[i], args)) { NoCompletionNoDot(segs[i], args); }
        DotFreeConfines(ts, args, base);
      }
    }
    if forall args: Args, base: seq<string> :: Confined(ts, args, base) {
      var plain: Args := (_: string) => "a";
      assert Confined(ts, plain, []);
      ConfinedLiterals(ts, plain);
      forall i, args: Args | 0 <= i < |segs| && OverPieces(args) ensures !IsDot(Fill(segs[i], args)) {
        assert Confined(ts, args, []);
        ConfinedSegment(ts, args, i);
      }
    }
  }

  lemma ConfinedLiterals(ts: seq<Token>, args: Args)
    requires Confined(ts, args, [])
    ensures NoSyntaxTokens(ts)
  {
    if Lit('?') in ts { LiteralsAppear(ts, args, '?'); }
    if Lit('#') in ts { LiteralsAppear(ts, args, '#'); }
    if Lit(BACKSLASH) in ts { LiteralsAppear(ts, args, BACKSLASH); }
  }

  lemma ConfinedSegment(ts: seq<Token>, args: Args, i: nat)
    requires ts != [] && ts[0] == Lit('/') && Confined(ts, args, []) && i < |TokenSegments(ts)|
    ensures !IsDot(Fill(TokenSegments(ts)[i], args))
  {
    var f := Fill(ts, args);
    assert Segments(f)[i] == Fill(TokenSegments(ts)[i], args);
    if i > 0 {
      assert Segments(f)[1..][i - 1] == Segments(f)[i];
      PathStateHasNoDots([], [], f[1..], Segments(f)[i]);
    } else {
      assert TokenSegments(ts)[0] == [];
    }
  }

  /** `urlFor` over every rooted path template of the catalogue. */
  lemma UrlForConfinesExactly(path: string)
    requires path != [] && path[0] == '/'
    ensures var ts := Tokenize(path);
            (forall args: Args, base: seq<string> :: Confined(ts, args, base)) <==>
            NoSyntaxTokens(ts) && forall i :: 0 <= i < |TokenSegments(ts)| ==> NoCompletion(TokenSegments(ts)[i])
  {
    ConfinedExactly(Tokenize(path));
  }
}
