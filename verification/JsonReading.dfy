/** Reading JSON texts back (RFC 8259), and what the text `stable` prints reads as. */
module JsonReading {
  import opened Options
  import opened CanonicalJson

  /** A document as its text has it: members in the order written. */
  datatype Doc =
    | DNull
    | DBool(b: bool)
    | DNum(numeral: string)
    | DStr(s: string)
    | DArr(items: seq<Doc>)
    | DObj(members: seq<Entry>)

  datatype Entry = Entry(key: string, value: Doc)

  // ---------- The reader ----------

  function HexOf(c: char): Option<nat> {
    if '0' <= c <= '9' then Some(c as int - 48)
    else if 'a' <= c <= 'f' then Some(c as int - 87)
    else if 'A' <= c <= 'F' then Some(c as int - 55)
    else None
  }

  /** The character that four hexadecimal digits name; surrogates are not read. */
  function UnitAt(s: string): Option<char> {
    if |s| < 4 || HexOf(s[0]).None? || HexOf(s[1]).None? || HexOf(s[2]).None? || HexOf(s[3]).None? then None
    else
      var n := 4096 * HexOf(s[0]).value + 256 * HexOf(s[1]).value + 16 * HexOf(s[2]).value + HexOf(s[3]).value;
      if 0xD800 <= n < 0xE000 || n > 0xFFFF then None else Some(n as char)
  }

  function Escaped(c: char): Option<char> {
    if c == '"' || c == BACKSLASH || c == '/' then Some(c)
    else if c == 'b' then Some(8 as char)
    else if c == 'f' then Some(12 as char)
    else if c == 'n' then Some(10 as char)
    else if c == 'r' then Some(13 as char)
    else if c == 't' then Some(9 as char)
    else None
  }

  /** The first character a string literal goes on with, and how much of the text it takes. */
  function ReadChar(s: string): (r: Option<(char, nat)>)
    requires s != []
    ensures r.Some? ==> 0 < r.value.1 <= |s|
  {
    if s[0] != BACKSLASH then (if s[0] as int < 32 then None else Some((s[0], 1)))
    else if |s| < 2 then None
    else if s[1] == 'u' then
      (match UnitAt(s[2..])
       case Some(c) => Some((c, 6))
       case None => None)
    else
      match Escaped(s[1])
      case Some(c) => Some((c, 2))
      case None => None
  }

  /** A string literal, from behind its opening quote, and what follows it. */
  function ReadString(s: string): (r: Option<(string, string)>)
    ensures r.Some? ==> |r.value.1| < |s|
    decreases |s|
  {
    if s == [] then None
    else if s[0] == '"' then Some(("", s[1..]))
    else match ReadChar(s)
      case None => None
      case Some((c, n)) =>
        match ReadString(s[n..])
        case None => None
        case Some((tail, rest)) => Some(([c] + tail, rest))
  }

  predicate NumeralChar(c: char) {
    '0' <= c <= '9' || c == '-' || c == '+' || c == '.' || c == 'e'
  }

  function NumeralRun(s: string): (n: nat)
    ensures n <= |s|
  {
    if s != [] && NumeralChar(s[0]) then 1 + NumeralRun(s[1..]) else 0
  }

  function ReadValue(s: string): (r: Option<(Doc, string)>)
    ensures r.Some? ==> |r.value.1| < |s|
    decreases |s|, 2
  {
    if "null" <= s then Some((DNull, s[4..]))
    else if "true" <= s then Some((DBool(true), s[4..]))
    else if "false" <= s then Some((DBool(false), s[5..]))
    else if s == [] then None
    else if s[0] == '"' then
      (match ReadString(s[1..])
       case None => None
       case Some((t, rest)) => Some((DStr(t), rest)))
    else if s[0] == '[' then
      if "]" <= s[1..] then Some((DArr([]), s[2..]))
      else (match ReadItems(s[1..])
            case None => None
            case Some((items, rest)) => Some((DArr(items), rest)))
    else if s[0] == '{' then
      if "}" <= s[1..] then Some((DObj([]), s[2..]))
      else (match ReadMembers(s[1..])
            case None => None
            case Some((members, rest)) => Some((DObj(members), rest)))
    else
      var n := NumeralRun(s);
      if n == 0 then None else Some((DNum(s[..n]), s[n..]))
  }

  /** One item at least, up to the closing bracket. */
  function ReadItems(s: string): (r: Option<(seq<Doc>, string)>)
    ensures r.Some? ==> |r.value.1| < |s|
    decreases |s|, 3
  {
    match ReadValue(s)
    case None => None
    case Some((d, rest)) =>
      if "]" <= rest then Some(([d], rest[1..]))
      else if "," <= rest then
        match ReadItems(rest[1..])
        case None => None
        case Some((tail, behind)) => Some(([d] + tail, behind))
      else None
  }

  /** One member at least, up to the closing brace. */
  function ReadMembers(s: string): (r: Option<(seq<Entry>, string)>)
    ensures r.Some? ==> |r.value.1| < |s|
    decreases |s|, 3
  {
    if !("\"" <= s) then None
    else match ReadString(s[1..])
      case None => None
      case Some((key, colon)) =>
        if !(":" <= colon) then None
        else match ReadValue(colon[1..])
          case None => None
          case Some((d, rest)) =>
            if "}" <= rest then Some(([Entry(key, d)], rest[1..]))
            else if "," <= rest then
              match ReadMembers(rest[1..])
              case None => None
              case Some((tail, behind)) => Some(([Entry(key, d)] + tail, behind))
            else None
  }

  // ---------- Strings and numerals read back ----------

  lemma CharReads(c: char, rest: string)
    ensures EscapeChar(c) != [] && EscapeChar(c)[0] != '"'
    ensures ReadChar(EscapeChar(c) + rest) == Some((c, |EscapeChar(c)|))
  {
    var n, e := c as int, EscapeChar(c);
    var s := e + rest;
    if n < 32 && n != 8 && n != 9 && n != 10 && n != 12 && n != 13 {
      assert s[2..][0] == '0' && s[2..][1] == '0' && s[2..][2] == HexDigit(n / 16) && s[2..][3] == HexDigit(n % 16);
      HexReads(n / 16);
      HexReads(n % 16);
      hide HexDigit, HexOf;
      HexReads(0);
      HexZero();
      assert 16 * (n / 16) + n % 16 == n;
    }
  }

  lemma HexZero()
    ensures HexDigit(0) == '0'
  {
  }

  lemma HexReads(n: int)
    requires 0 <= n < 16
    ensures HexOf(HexDigit(n)) == Some(n)
  {
  }

  /** A quoted string reads back as the string. */
  lemma {:induction false} QuoteReads(s: string, rest: string)
    ensures ReadString(Escape(s) + "\"" + rest) == Some((s, rest))
  {
    hide EscapeChar, ReadChar;
    var text := Escape(s) + "\"" + rest;
    if s == [] {
      assert text == "\"" + rest;
    } else {
      var tail := Escape(s[1..]) + "\"" + rest;
      assert text == EscapeChar(s[0]) + tail;
      CharReads(s[0], tail);
      assert text[|EscapeChar(s[0])|..] == tail;
      assert text[0] == EscapeChar(s[0])[0];
      QuoteReads(s[1..], rest);
      assert s == [s[0]] + s[1..];
    }
  }

  /** What may follow a value. */
  predicate Delimited(rest: string) {
    rest == [] || rest[0] == ',' || rest[0] == ']' || rest[0] == '}'
  }

  lemma {:induction false} NumeralReads(n: string, rest: string)
    requires (forall i :: 0 <= i < |n| ==> NumeralChar(n[i])) && Delimited(rest)
    ensures NumeralRun(n + rest) == |n|
  {
    if n == [] {
      assert n + rest == rest;
    } else {
      assert (n + rest)[1..] == n[1..] + rest;
      NumeralReads(n[1..], rest);
    }
  }

  lemma NumberReads(n: Numeral, rest: string)
    requires Delimited(rest)
    ensures ReadValue(n + rest) == Some((DNum(n), rest))
  {
    assert (n + rest)[0] == n[0];
    forall i | 0 <= i < |n| ensures NumeralChar(n[i]) { assert n[i] in n; }
    NumeralReads(n, rest);
    assert (n + rest)[..|n|] == n && (n + rest)[|n|..] == rest;
  }

  // ---------- What the printed text reads as ----------

  /** The document is the value's: nothing for what JSON drops, members in ascending order of their names. */
  ghost predicate Tells(d: Doc, v: Value)
    decreases v, 1
  {
    match v
    case Undefined => d == DNull
    case Null => d == DNull
    case Bool(b) => d == DBool(b)
    case Num(n) => d == DNum(n)
    case Str(s) => d == DStr(s)
    case Arr(items) => d.DArr? && |d.items| == |items| && forall i :: 0 <= i < |items| ==> Tells(d.items[i], items[i])
    case Obj(fields) =>
      && d.DObj?
      && (forall i, j :: 0 <= i < j < |d.members| ==> UnitsLess(Utf16(d.members[i].key), Utf16(d.members[j].key)))
      && (forall i :: 0 <= i < |d.members| ==> Member(d.members[i], v))
      && forall f :: f in fields && !f.value.Undefined? ==>
           exists i :: 0 <= i < |d.members| && d.members[i].key == f.key
  }

  ghost predicate Member(m: Entry, v: Value)
    requires v.Obj?
    decreases v, 0
  {
    exists k :: 0 <= k < |v.fields| && v.fields[k].key == m.key && !v.fields[k].value.Undefined?
                && Tells(m.value, v.fields[k].value)
  }

  // ---------- The order of JavaScript strings ----------

  /** A character's UTF-16 code units. */
  function Units(c: char): seq<int> {
    var n := c as int;
    if n < 0x10000 then [n] else [0xD800 + (n - 0x10000) / 0x400, 0xDC00 + (n - 0x10000) % 0x400]
  }

  function Utf16(s: string): seq<int> {
    if s == [] then [] else Units(s[0]) + Utf16(s[1..])
  }

  /** `<` on strings: the shorter of two that agree so far, else the one with the lesser code unit where they part. */
  ghost predicate UnitsLess(a: seq<int>, b: seq<int>) {
    exists n: nat :: n <= |a| && n < |b| && a[..n] == b[..n] && (n == |a| || (n < |a| && a[n] < b[n]))
  }

  lemma UnitsLessStep(p: seq<int>, a: seq<int>, b: seq<int>)
    ensures UnitsLess(p + a, p + b) <==> UnitsLess(a, b)
  {
    if UnitsLess(a, b) {
      var n: nat :| n <= |a| && n < |b| && a[..n] == b[..n] && (n == |a| || (n < |a| && a[n] < b[n]));
      var m := |p| + n;
      assert (p + a)[..m] == p + a[..n] && (p + b)[..m] == p + b[..n];
      assert m <= |p + a| && m < |p + b| && (n < |a| ==> (p + a)[m] == a[n]) && (p + b)[m] == b[n];
    }
    if UnitsLess(p + a, p + b) {
      var m: nat :| m <= |p + a| && m < |p + b| && (p + a)[..m] == (p + b)[..m]
                    && (m == |p + a| || (m < |p + a| && (p + a)[m] < (p + b)[m]));
      assert m >= |p|;
      var n := m - |p|;
      assert a[..n] == (p + a)[..m][|p|..] && b[..n] == (p + b)[..m][|p|..];
    }
  }

  lemma UnitsApart(c: char, d: char, a: seq<int>, b: seq<int>)
    requires c != d
    ensures UnitsLess(Units(c) + a, Units(d) + b) <==> Rank(c) < Rank(d)
  {
    var x, y, m, n := Units(c) + a, Units(d) + b, c as int, d as int;
    if x[0] == y[0] {
      assert m >= 0x10000 && n >= 0x10000;
      assert x[1] != y[1] && x[1] == 0xDC00 + (m - 0x10000) % 0x400 && y[1] == 0xDC00 + (n - 0x10000) % 0x400;
      assert (m - 0x10000) / 0x400 == (n - 0x10000) / 0x400;
      FirstDifference(x, y, 1);
    } else {
      FirstDifference(x, y, 0);
    }
  }

  lemma FirstDifference(a: seq<int>, b: seq<int>, n: nat)
    requires n < |a| && n < |b| && a[..n] == b[..n] && a[n] != b[n]
    ensures UnitsLess(a, b) <==> a[n] < b[n]
  {
    if UnitsLess(a, b) {
      var m: nat :| m <= |a| && m < |b| && a[..m] == b[..m] && (m == |a| || (m < |a| && a[m] < b[m]));
      forall i | 0 <= i < m ensures a[i] == b[i] { assert a[..m][i] == b[..m][i]; }
      forall i | 0 <= i < n ensures a[i] == b[i] { assert a[..n][i] == b[..n][i]; }
    }
  }

  /** Keys are compared as JavaScript compares strings: by UTF-16 code unit. */
  lemma {:induction false} KeyLessExactly(a: string, b: string)
    ensures KeyLess(a, b) <==> UnitsLess(Utf16(a), Utf16(b))
  {
    if b == [] {
      NothingLess(Utf16(a));
    } else if a == [] {
      assert Utf16(a)[..0] == Utf16(b)[..0];
    } else if a[0] == b[0] {
      KeyLessExactly(a[1..], b[1..]);
      UnitsLessStep(Units(a[0]), Utf16(a[1..]), Utf16(b[1..]));
    } else {
      UnitsApart(a[0], b[0], Utf16(a[1..]), Utf16(b[1..]));
    }
  }

  lemma NothingLess(a: seq<int>)
    ensures !UnitsLess(a, [])
  {
  }

  // ---------- Reading back what `stable` prints ----------

  lemma WordReads(v: Value, rest: string)
    requires v.Undefined? || v.Null? || v.Bool?
    ensures ReadValue(Stable(v) + rest) == Some((if v.Bool? then DBool(v.b) else DNull, rest))
  {
    var s, w := Stable(v) + rest, Stable(v);
    assert w == "null" || w == "true" || w == "false";
    assert s[..|w|] == w && s[|w|..] == rest && s[0] == w[0];
  }

  lemma StringReads(t: string, rest: string)
    ensures ReadValue(Quote(t) + rest) == Some((DStr(t), rest))
  {
    var s := Quote(t) + rest;
    assert s[0] == '"' && s[1..] == Escape(t) + "\"" + rest;
    QuoteReads(t, rest);
  }

  lemma ClosingUnread(s: string)
    requires s != [] && s[0] == ']'
    ensures ReadValue(s) == None
  {
    assert NumeralRun(s) == 0;
    assert "null"[0] != s[0] && "true"[0] != s[0] && "false"[0] != s[0];
  }

  lemma ItemsFirst(s: string)
    requires ReadItems(s).Some?
    ensures s != [] && s[0] != ']'
  {
    hide ReadValue;
    if s != [] && s[0] == ']' { ClosingUnread(s); }
  }

  lemma ItemsStep(s: string, d: Doc, rest: string)
    requires ReadValue(s) == Some((d, rest))
    ensures "]" <= rest ==> ReadItems(s) == Some(([d], rest[1..]))
    ensures !("]" <= rest) && "," <= rest && ReadItems(rest[1..]).Some? ==>
              ReadItems(s) == Some(([d] + ReadItems(rest[1..]).value.0, ReadItems(rest[1..]).value.1))
  {
    hide ReadValue;
  }

  lemma MembersStep(key: string, s: string, d: Doc, rest: string)
    requires ReadValue(s) == Some((d, rest))
    ensures var text := Quote(key) + (":" + s);
            && ("}" <= rest ==> ReadMembers(text) == Some(([Entry(key, d)], rest[1..])))
            && (!("}" <= rest) && "," <= rest && ReadMembers(rest[1..]).Some? ==>
                  ReadMembers(text) == Some(([Entry(key, d)] + ReadMembers(rest[1..]).value.0,
                                             ReadMembers(rest[1..]).value.1)))
  {
    hide ReadValue, ReadString, Escape;
    var text := Quote(key) + (":" + s);
    assert text[0] == '"' && text[1..] == Escape(key) + "\"" + (":" + s);
    QuoteReads(key, ":" + s);
    assert (":" + s)[1..] == s && (":" + s)[0] == ':';
  }

  lemma Behind(c: char, rest: string)
    ensures [c] <= [c] + rest && ([c] + rest)[1..] == rest
  {
  }

  lemma ArrayReads(text: string, items: seq<Doc>, rest: string)
    requires ReadItems(text + "]" + rest) == Some((items, rest))
    ensures ReadValue("[" + text + "]" + rest) == Some((DArr(items), rest))
  {
    var s, inner := "[" + text + "]" + rest, text + "]" + rest;
    assert s[0] == '[' && s[1..] == inner;
    ItemsFirst(inner);
  }

  lemma QuoteFirst(s: string)
    requires ReadMembers(s).Some?
    ensures s != [] && s[0] == '"'
  {
  }

  lemma ObjectReads(text: string, members: seq<Entry>, rest: string)
    requires ReadMembers(text + "}" + rest) == Some((members, rest))
    ensures ReadValue("{" + text + "}" + rest) == Some((DObj(members), rest))
  {
    var s, inner := "{" + text + "}" + rest, text + "}" + rest;
    assert s[0] == '{' && s[1..] == inner;
    QuoteFirst(inner);
  }

  lemma NothingInside(rest: string)
    ensures ReadValue("[" + "]" + rest) == Some((DArr([]), rest))
    ensures ReadValue("{" + "}" + rest) == Some((DObj([]), rest))
  {
    var a, o := "[" + "]" + rest, "{" + "}" + rest;
    assert a[0] == '[' && a[1..][0] == ']' && a[2..] == rest;
    assert o[0] == '{' && o[1..][0] == '}' && o[2..] == rest;
  }

  lemma OneItem(first: string, d: Doc, rest: string)
    requires ReadValue(first + ("]" + rest)) == Some((d, "]" + rest))
    ensures ReadItems(first + "]" + rest) == Some(([d], rest))
  {
    hide ReadValue, ReadItems;
    assert first + "]" + rest == first + ("]" + rest);
    Behind(']', rest);
    ItemsStep(first + ("]" + rest), d, "]" + rest);
  }

  lemma MoreItems(first: string, d: Doc, tail: string, ds: seq<Doc>, rest: string)
    requires ReadValue(first + ("," + tail)) == Some((d, "," + tail)) && ReadItems(tail) == Some((ds, rest))
    ensures ReadItems(first + "," + tail) == Some(([d] + ds, rest))
  {
    hide ReadValue, ReadItems;
    assert first + "," + tail == first + ("," + tail);
    Behind(',', tail);
    assert ("," + tail)[0] == ',';
    ItemsStep(first + ("," + tail), d, "," + tail);
  }

  lemma MemberText(key: string, first: string, end: string, tail: string)
    ensures Quote(key) + ":" + first + end + tail == Quote(key) + (":" + (first + (end + tail)))
  {
    hide Quote;
  }

  lemma OneMember(key: string, first: string, d: Doc, rest: string)
    requires ReadValue(first + ("}" + rest)) == Some((d, "}" + rest))
    ensures ReadMembers(Quote(key) + ":" + first + "}" + rest) == Some(([Entry(key, d)], rest))
  {
    hide ReadValue, ReadMembers, Quote;
    MemberText(key, first, "}", rest);
    Behind('}', rest);
    MembersStep(key, first + ("}" + rest), d, "}" + rest);
  }

  lemma MoreMembers(key: string, first: string, d: Doc, tail: string, ms: seq<Entry>, rest: string)
    requires ReadValue(first + ("," + tail)) == Some((d, "," + tail)) && ReadMembers(tail) == Some((ms, rest))
    ensures ReadMembers(Quote(key) + ":" + first + "," + tail) == Some(([Entry(key, d)] + ms, rest))
  {
    hide ReadValue, ReadMembers, Quote;
    MemberText(key, first, ",", tail);
    Behind(',', tail);
    assert ("," + tail)[0] == ',';
    MembersStep(key, first + ("," + tail), d, "," + tail);
  }

  lemma {:induction false} ItemsRead(whole: Value, items: seq<Value>, rest: string) returns (ds: seq<Doc>)
    requires items != [] && (forall i :: 0 <= i < |items| ==> items[i] < whole && WellFormed(items[i]))
    ensures ReadItems(StableItems(whole, items) + "]" + rest) == Some((ds, rest))
    ensures |ds| == |items| && forall i :: 0 <= i < |ds| ==> Tells(ds[i], items[i])
    decreases whole, 0, |items|
  {
    hide ReadValue, ReadItems, Stable, Tells, WellFormed;
    if |items| == 1 {
      var d := ValueReads(items[0], "]" + rest);
      ds := [d];
      OneItem(Stable(items[0]), d, rest);
    } else {
      var tail := StableItems(whole, items[1..]) + "]" + rest;
      var d := ValueReads(items[0], "," + tail);
      var more := ItemsRead(whole, items[1..], rest);
      ds := [d] + more;
      MoreItems(Stable(items[0]), d, tail, more, rest);
      assert StableItems(whole, items) + "]" + rest == Stable(items[0]) + "," + tail;
      forall i | 0 <= i < |ds| ensures Tells(ds[i], items[i]) { if i > 0 { assert items[i] == items[1..][i - 1]; } }
    }
  }

  lemma {:induction false} FieldsRead(whole: Value, fs: seq<Field>, rest: string) returns (ms: seq<Entry>)
    requires fs != [] && Within(whole, fs) && forall f :: f in fs ==> WellFormed(f.value)
    ensures ReadMembers(StableFields(whole, fs) + "}" + rest) == Some((ms, rest))
    ensures |ms| == |fs| && forall i :: 0 <= i < |ms| ==> ms[i].key == fs[i].key && Tells(ms[i].value, fs[i].value)
    decreases whole, 0, |fs|
  {
    hide ReadValue, ReadMembers, Stable, Tells, WellFormed, Quote;
    var f := fs[0];
    assert f in fs;
    var entry := Quote(f.key) + ":" + Stable(f.value);
    if |fs| == 1 {
      var d := ValueReads(f.value, "}" + rest);
      ms := [Entry(f.key, d)];
      OneMember(f.key, Stable(f.value), d, rest);
    } else {
      var tail := StableFields(whole, fs[1..]) + "}" + rest;
      var d := ValueReads(f.value, "," + tail);
      var more := FieldsRead(whole, fs[1..], rest);
      ms := [Entry(f.key, d)] + more;
      MoreMembers(f.key, Stable(f.value), d, tail, more, rest);
      assert StableFields(whole, fs) + "}" + rest == entry + "," + tail;
      forall i | 0 <= i < |ms| ensures ms[i].key == fs[i].key && Tells(ms[i].value, fs[i].value) {
        if i > 0 { assert fs[i] == fs[1..][i - 1] && ms[i] == more[i - 1]; }
      }
    }
  }

  /** The members read are the object's, in ascending order. */
  lemma MembersTell(v: Value, ms: seq<Entry>)
    requires v.Obj? && WellFormed(v)
    requires var fs := SortByKey(Defined(v.fields));
             |ms| == |fs| && forall i :: 0 <= i < |ms| ==> ms[i].key == fs[i].key && Tells(ms[i].value, fs[i].value)
    ensures Tells(DObj(ms), v)
  {
    hide Tells, KeyLess, UnitsLess, SortByKey, Defined;
    var fs := SortByKey(Defined(v.fields));
    DefinedKeepsUnique(v.fields);
    SortSorts(Defined(v.fields));
    SortedMembers(v, fs);
    forall i, j | 0 <= i < j < |ms| ensures UnitsLess(Utf16(ms[i].key), Utf16(ms[j].key)) {
      KeyLessExactly(fs[i].key, fs[j].key);
    }
    forall i | 0 <= i < |ms| ensures Member(ms[i], v) {
      assert fs[i] in v.fields && !fs[i].value.Undefined?;
      var k :| 0 <= k < |v.fields| && v.fields[k] == fs[i];
    }
    forall f | f in v.fields && !f.value.Undefined? ensures exists i :: 0 <= i < |ms| && ms[i].key == f.key {
      var i :| 0 <= i < |fs| && fs[i] == f;
      assert ms[i].key == f.key;
    }
    TellsObject(v, ms);
  }

  lemma SortedMembers(v: Value, fs: seq<Field>)
    requires v.Obj? && fs == SortByKey(Defined(v.fields))
    ensures forall f :: f in fs <==> f in v.fields && !f.value.Undefined?
  {
    forall f ensures f in fs <==> f in Defined(v.fields) {
      assert f in fs <==> f in multiset(fs);
      assert f in Defined(v.fields) <==> f in multiset(Defined(v.fields));
    }
  }

  lemma TellsObject(v: Value, ms: seq<Entry>)
    requires v.Obj?
    requires forall i, j :: 0 <= i < j < |ms| ==> UnitsLess(Utf16(ms[i].key), Utf16(ms[j].key))
    requires forall i :: 0 <= i < |ms| ==> Member(ms[i], v)
    requires forall f :: f in v.fields && !f.value.Undefined? ==> exists i :: 0 <= i < |ms| && ms[i].key == f.key
    ensures Tells(DObj(ms), v)
  {
    hide UnitsLess, Member;
  }

  lemma {:induction false} ValueReads(v: Value, rest: string) returns (d: Doc)
    requires WellFormed(v) && Delimited(rest)
    ensures ReadValue(Stable(v) + rest) == Some((d, rest)) && Tells(d, v)
    decreases v, 1
  {
    hide ReadValue, ReadItems, ReadMembers, Tells, Quote;
    match v
    case Num(n) =>
      NumberReads(n, rest);
      d := DNum(n);
      PlainTells(v, d);
    case Str(t) =>
      StringReads(t, rest);
      d := DStr(t);
      PlainTells(v, d);
    case Arr(items) =>
      d := ItemsOfArray(v, rest);
    case Obj(fields) =>
      d := MembersOfObject(v, rest);
    case Bool(b) =>
      WordReads(v, rest);
      d := DBool(b);
      PlainTells(v, d);
    case _ =>
      WordReads(v, rest);
      d := DNull;
      PlainTells(v, d);
  }

  lemma PlainTells(v: Value, d: Doc)
    requires match v
             case Undefined => d == DNull
             case Null => d == DNull
             case Bool(b) => d == DBool(b)
             case Num(n) => d == DNum(n)
             case Str(s) => d == DStr(s)
             case _ => false
    ensures Tells(d, v)
  {
  }

  lemma {:induction false} ItemsOfArray(v: Value, rest: string) returns (d: Doc)
    requires v.Arr? && WellFormed(v) && Delimited(rest)
    ensures ReadValue(Stable(v) + rest) == Some((d, rest)) && Tells(d, v)
    decreases v, 0, |v.items| + 1
  {
    hide ReadValue, ReadItems;
    if v.items == [] {
      NothingInside(rest);
      d := DArr([]);
      assert Stable(v) + rest == "[" + "]" + rest;
    } else {
      forall i | 0 <= i < |v.items| ensures WellFormed(v.items[i]) { assert v.items[i] in v.items; }
      var ds := ItemsRead(v, v.items, rest);
      ArrayReads(StableItems(v, v.items), ds, rest);
      d := DArr(ds);
    }
  }

  lemma {:induction false} MembersOfObject(v: Value, rest: string) returns (d: Doc)
    requires v.Obj? && WellFormed(v) && Delimited(rest)
    ensures ReadValue(Stable(v) + rest) == Some((d, rest)) && Tells(d, v)
    decreases v, 0, |v.fields| + 1
  {
    hide ReadValue, ReadMembers, Tells, SortByKey, Defined, UniqueKeys;
    var fs := SortByKey(Defined(v.fields));
    SortedWithin(v, v.fields);
    SortedMembers(v, fs);
    assert Stable(v) == "{" + StableFields(v, fs) + "}";
    if fs == [] {
      NothingInside(rest);
      assert Stable(v) + rest == "{" + "}" + rest;
      MembersTell(v, []);
      d := DObj([]);
    } else {
      var ms := FieldsRead(v, fs, rest);
      ObjectReads(StableFields(v, fs), ms, rest);
      MembersTell(v, ms);
      d := DObj(ms);
    }
  }

  /** The text `stable` prints is a JSON text, and reads as the value: members in ascending order of their names,
      undefined ones dropped, undefined as null elsewhere. */
  lemma StableReadsBack(v: Value) returns (d: Doc)
    requires WellFormed(v)
    ensures ReadValue(Stable(v)) == Some((d, "")) && Tells(d, v)
  {
    hide ReadValue, Stable, Tells;
    d := ValueReads(v, "");
    assert Stable(v) + "" == Stable(v);
  }
}
