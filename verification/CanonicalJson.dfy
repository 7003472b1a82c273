/** The deterministic serialiser `stable`. */
module CanonicalJson {
  /** A finite number is identified with the numeral ECMA-262 prints for it. */
  type Numeral = s: string | IsNumeral(s) witness "0"

  predicate IsNumeral(s: string) {
    && |s| > 0
    && ('0' <= s[0] <= '9' || s[0] == '-')
    && forall c :: c in s ==> '0' <= c <= '9' || c == '-' || c == '+' || c == '.' || c == 'e'
  }

  /** A JavaScript value, as far as the serialiser can tell values apart. */
  datatype Value =
    | Undefined
    | Null
    | Bool(b: bool)
    | Num(numeral: Numeral)
    | Str(s: string)
    | Arr(items: seq<Value>)
    | Obj(fields: seq<Field>)  // own enumerable properties, in insertion order

  datatype Field = Field(key: string, value: Value)

  /** What a value means as a JSON document. */
  datatype Canon =
    | CNull
    | CBool(b: bool)
    | CNum(numeral: Numeral)
    | CStr(s: string)
    | CArr(items: seq<Canon>)
    | CObj(fields: map<string, Canon>)

  predicate UniqueKeys(fs: seq<Field>) {
    forall i, j :: 0 <= i < j < |fs| ==> fs[i].key != fs[j].key
  }

  /** No object carries one property name twice. */
  predicate WellFormed(v: Value) {
    match v
    case Arr(items) => forall x :: x in items ==> WellFormed(x)
    case Obj(fields) => UniqueKeys(fields) && forall f :: f in fields ==> WellFormed(f.value)
    case _ => true
  }

  ghost function Denote(v: Value): Canon
    decreases v, 1
  {
    match v
    case Undefined => CNull
    case Null => CNull
    case Bool(b) => CBool(b)
    case Num(n) => CNum(n)
    case Str(s) => CStr(s)
    case Arr(items) => CArr(seq(|items|, i requires 0 <= i < |items| => Denote(items[i])))
    case Obj(fields) => CObj(DenoteFields(v, fields))
  }

  ghost function DenoteFields(whole: Value, fs: seq<Field>): map<string, Canon>
    requires Within(whole, fs)
    decreases whole, 0, |fs|
  {
    if fs == [] then map[]
    else if fs[0].value.Undefined? then DenoteFields(whole, fs[1..])
    else DenoteFields(whole, fs[1..])[fs[0].key := Denote(fs[0].value)]
  }

  /** Every field value is a proper part of `whole`; what makes the recursion through a list end. */
  ghost predicate Within(whole: Value, fs: seq<Field>) {
    forall f :: f in fs ==> f.value < whole
  }

  // ---------- Object keys in the order `<` gives JavaScript strings ----------

  /** Strings compare by UTF-16 code unit, which places astral characters below U+E000. */
  function Rank(c: char): int {
    var n := c as int;
    if n < 0xD800 then n else if n >= 0x10000 then n - 0x10000 + 0xD800 else n + 0x100000
  }

  predicate KeyLess(a: string, b: string) {
    if b == [] then false
    else if a == [] then true
    else Rank(a[0]) < Rank(b[0]) || (a[0] == b[0] && KeyLess(a[1..], b[1..]))
  }

  lemma {:induction false} KeyLessTotal(a: string, b: string)
    ensures KeyLess(a, b) || a == b || KeyLess(b, a)
    ensures !(KeyLess(a, b) && KeyLess(b, a))
    ensures !KeyLess(a, a)
  {
    if a != [] {
      KeyLessTotal(a[1..], a[1..]);
      if b != [] {
        KeyLessTotal(a[1..], b[1..]);
        if a[0] == b[0] && a[1..] == b[1..] {
          assert a == [a[0]] + a[1..] && b == [b[0]] + b[1..];
        }
      }
    }
  }

  lemma {:induction false} KeyLessTransitive(a: string, b: string, c: string)
    requires KeyLess(a, b) && KeyLess(b, c)
    ensures KeyLess(a, c)
  {
    if a != [] && a[0] == b[0] == c[0] {
      KeyLessTransitive(a[1..], b[1..], c[1..]);
    }
  }

  predicate SortedKeys(fs: seq<Field>) {
    forall i, j :: 0 <= i < j < |fs| ==> KeyLess(fs[i].key, fs[j].key)
  }

  function Insert(f: Field, fs: seq<Field>): (r: seq<Field>)
    ensures multiset(r) == multiset{f} + multiset(fs)
    ensures |r| == |fs| + 1
  {
    if fs == [] || !KeyLess(fs[0].key, f.key) then
      [f] + fs
    else
      assert fs == [fs[0]] + fs[1..];
      [fs[0]] + Insert(f, fs[1..])
  }

  function SortByKey(fs: seq<Field>): (r: seq<Field>)
    ensures multiset(r) == multiset(fs)
    ensures |r| == |fs|
  {
    if fs == [] then []
    else
      assert fs == [fs[0]] + fs[1..];
      Insert(fs[0], SortByKey(fs[1..]))
  }

  /** `filter(([, v]) => v !== undefined)`. */
  function Defined(fs: seq<Field>): (r: seq<Field>)
    ensures |r| <= |fs|
    ensures forall f :: f in r <==> f in fs && !f.value.Undefined?
  {
    if fs == [] then []
    else (if fs[0].value.Undefined? then [] else [fs[0]]) + Defined(fs[1..])
  }

  // ---------- JSON string literals ----------

  function HexDigit(n: int): char
    requires 0 <= n < 16
  {
    if n < 10 then '0' + n as char else 'a' + (n - 10) as char
  }

  const BACKSLASH := 92 as char

  /** One character inside a string literal, as JSON.stringify writes it. */
  function EscapeChar(c: char): string {
    if c == '"' then [BACKSLASH, '"']
    else if c == BACKSLASH then [BACKSLASH, BACKSLASH]
    else if c as int == 8 then [BACKSLASH, 'b']
    else if c as int == 9 then [BACKSLASH, 't']
    else if c as int == 10 then [BACKSLASH, 'n']
    else if c as int == 12 then [BACKSLASH, 'f']
    else if c as int == 13 then [BACKSLASH, 'r']
    else if c as int < 32 then [BACKSLASH, 'u', '0', '0', HexDigit(c as int / 16), HexDigit(c as int % 16)]
    else [c]
  }

  function Escape(s: string): string {
    if s == [] then [] else EscapeChar(s[0]) + Escape(s[1..])
  }

  function Quote(s: string): string {
    "\"" + Escape(s) + "\""
  }

  // ---------- The serialiser ----------

  function Stable(v: Value): string
    decreases v, 1
  {
    match v
    case Undefined => "null"
    case Null => "null"
    case Bool(b) => if b then "true" else "false"
    case Num(n) => n
    case Str(s) => Quote(s)
    case Arr(items) => "[" + StableItems(v, items) + "]"
    case Obj(fields) =>
      var entries := SortByKey(Defined(fields));
      SortedWithin(v, fields);
      "{" + StableFields(v, entries) + "}"
  }

  function StableItems(ghost whole: Value, items: seq<Value>): string
    requires forall i :: 0 <= i < |items| ==> items[i] < whole
    decreases whole, 0, |items|
  {
    if items == [] then []
    else if |items| == 1 then Stable(items[0])
    else Stable(items[0]) + "," + StableItems(whole, items[1..])
  }

  function StableFields(ghost whole: Value, fs: seq<Field>): string
    requires Within(whole, fs)
    decreases whole, 0, |fs|
  {
    if fs == [] then []
    else
      var entry := Quote(fs[0].key) + ":" + Stable(fs[0].value);
      if |fs| == 1 then entry else entry + "," + StableFields(whole, fs[1..])
  }

  lemma SortedWithin(whole: Value, fs: seq<Field>)
    requires Within(whole, fs)
    ensures Within(whole, SortByKey(Defined(fs)))
  {
    var s := SortByKey(Defined(fs));
    forall f | f in s ensures f.value < whole {
      assert f in multiset(s);
    }
  }

  // ---------- Nothing is forgotten: equal text means equal documents ----------

  /** What may follow a serialised value. */
  predicate Delim(r: string) {
    r == [] || r[0] == ',' || r[0] == ']' || r[0] == '}'
  }

  lemma CharPrefix(c: char, d: char, x: string, y: string)
    requires EscapeChar(c) + x == EscapeChar(d) + y
    ensures c == d && x == y
  {
    var a, b := EscapeChar(c) + x, EscapeChar(d) + y;
    assert a[0] == EscapeChar(c)[0] && b[0] == EscapeChar(d)[0];
    assert |EscapeChar(c)| > 1 ==> a[1] == EscapeChar(c)[1];
    assert |EscapeChar(d)| > 1 ==> b[1] == EscapeChar(d)[1];
    if |EscapeChar(c)| == 6 && |EscapeChar(d)| == 6 {
      assert a[4] == EscapeChar(c)[4] && a[5] == EscapeChar(c)[5];
      assert b[4] == EscapeChar(d)[4] && b[5] == EscapeChar(d)[5];
      assert c as int / 16 == d as int / 16 && c as int % 16 == d as int % 16;
    }
    assert |EscapeChar(c)| == |EscapeChar(d)|;
    assert x == a[|EscapeChar(c)|..] && y == b[|EscapeChar(d)|..];
  }

  lemma {:induction false} EscapePrefix(s: string, t: string, x: string, y: string)
    requires Escape(s) + "\"" + x == Escape(t) + "\"" + y
    ensures s == t && x == y
  {
    EscapeUnfold(s, x);
    EscapeUnfold(t, y);
    if s == [] || t == [] {
      assert (Escape(s) + "\"" + x)[0] == (Escape(t) + "\"" + y)[0];
      assert s == [] && t == [];
      assert x == (['"'] + x)[1..] && y == (['"'] + y)[1..];
    } else {
      CharPrefix(s[0], t[0], Escape(s[1..]) + "\"" + x, Escape(t[1..]) + "\"" + y);
      EscapePrefix(s[1..], t[1..], x, y);
      assert s == [s[0]] + s[1..] && t == [t[0]] + t[1..];
    }
  }

  lemma EscapeUnfold(s: string, x: string)
    ensures s == [] ==> Escape(s) + "\"" + x == ['"'] + x
    ensures s != [] ==> Escape(s) + "\"" + x == EscapeChar(s[0]) + (Escape(s[1..]) + "\"" + x)
    ensures (Escape(s) + "\"" + x)[0] == '"' <==> s == []
  {
    if s != [] {
      assert EscapeChar(s[0]) != [] && EscapeChar(s[0])[0] != '"';
      hide EscapeChar;
      Assoc(EscapeChar(s[0]), Escape(s[1..]), "\"");
      Assoc(EscapeChar(s[0]), Escape(s[1..]) + "\"", x);
    }
  }

  lemma QuotePrefix(s: string, t: string, x: string, y: string)
    requires Quote(s) + x == Quote(t) + y
    ensures s == t && x == y
  {
    assert (Quote(s) + x)[1..] == Escape(s) + "\"" + x;
    assert (Quote(t) + y)[1..] == Escape(t) + "\"" + y;
    EscapePrefix(s, t, x, y);
  }

  lemma NumeralPrefix(m: Numeral, n: Numeral, x: string, y: string)
    requires m + x == n + y && Delim(x) && Delim(y)
    ensures m == n && x == y
  {
    var a := m + x;
    assert forall i :: 0 <= i < |m| ==> m[i] in m;
    assert forall i :: 0 <= i < |n| ==> n[i] in n;
    assert x != [] ==> a[|m|] == x[0];
    assert y != [] ==> a[|n|] == y[0];
    assert forall i :: 0 <= i < |m| ==> a[i] == m[i];
    assert forall i :: 0 <= i < |n| ==> a[i] == n[i];
    assert |m| == |n|;
    assert m == a[..|m|] && n == a[..|n|];
    assert x == a[|m|..] && y == a[|n|..];
  }

  /** The first character of a serialised value tells which kind it is. */
  lemma FirstChar(v: Value)
    ensures |Stable(v)| > 0
    ensures match v
            case Undefined => Stable(v)[0] == 'n'
            case Null => Stable(v)[0] == 'n'
            case Bool(b) => Stable(v)[0] == if b then 't' else 'f'
            case Num(n) => '0' <= Stable(v)[0] <= '9' || Stable(v)[0] == '-'
            case Str(_) => Stable(v)[0] == '"'
            case Arr(_) => Stable(v)[0] == '['
            case Obj(_) => Stable(v)[0] == '{'
  {
  }

  lemma Assoc(a: string, b: string, c: string)
    ensures (a + b) + c == a + (b + c)
  {
  }

  lemma Assoc4(a: string, b: string, c: string, d: string, e: string)
    ensures ((a + b) + c) + d + e == a + (b + (c + d + e))
  {
    Assoc(a + b, c, d);
    Assoc(a + b, c + d, e);
    Assoc(a, b, c + d + e);
  }

  lemma HeadTail(c: char, x: string, d: char, y: string)
    requires [c] + x == [d] + y
    ensures c == d && x == y
  {
    assert ([c] + x)[0] == c && ([d] + y)[0] == d;
    assert x == ([c] + x)[1..] && y == ([d] + y)[1..];
  }

  /** Scalars other than strings and numbers: the text fixes its own length. */
  lemma WordPrefix(a: string, b: string, x: string, y: string)
    requires a + x == b + y && |a| == |b|
    ensures x == y
  {
    assert x == (a + x)[|a|..] && y == (b + y)[|b|..];
  }

  lemma {:induction false} StablePrefix(v: Value, w: Value, x: string, y: string)
    requires WellFormed(v) && WellFormed(w)
    requires Stable(v) + x == Stable(w) + y
    requires Delim(x) && Delim(y)
    ensures Denote(v) == Denote(w) && x == y
    decreases v, 1
  {
    FirstChar(v);
    FirstChar(w);
    assert (Stable(v) + x)[0] == Stable(v)[0] && (Stable(w) + y)[0] == Stable(w)[0];
    match v
    case Num(m) => NumeralPrefix(m, w.numeral, x, y);
    case Str(s) => QuotePrefix(s, w.s, x, y);
    case Arr(vs) => ArrPrefix(v, w, x, y);
    case Obj(fs) => ObjPrefix(v, w, x, y);
    case _ => WordPrefix(Stable(v), Stable(w), x, y);
  }

  lemma {:induction false} ArrPrefix(v: Value, w: Value, x: string, y: string)
    requires v.Arr? && w.Arr? && WellFormed(v) && WellFormed(w)
    requires Stable(v) + x == Stable(w) + y
    ensures Denote(v) == Denote(w) && x == y
    decreases v, 0, |v.items| + 1
  {
    var a, b := ItemsText(v, v.items, x), ItemsText(w, w.items, y);
    assert Stable(v) + x == ['['] + a;
    assert Stable(w) + y == ['['] + b;
    HeadTail('[', a, '[', b);
    ItemsPrefix(v, v.items, w, w.items, x, y);
  }

  lemma ObjUnfold(v: Value, x: string)
    requires v.Obj?
    ensures Within(v, SortByKey(Defined(v.fields)))
    ensures Stable(v) + x == ['{'] + FieldsText(v, SortByKey(Defined(v.fields)), x)
  {
    SortedWithin(v, v.fields);
    var body := StableFields(v, SortByKey(Defined(v.fields)));
    assert Stable(v) == ("{" + body) + "}";
    Assoc("{" + body, "}", x);
    Assoc("{", body, "}" + x);
    Assoc(body, "}", x);
  }

  lemma {:induction false} ObjPrefix(v: Value, w: Value, x: string, y: string)
    requires v.Obj? && w.Obj? && WellFormed(v) && WellFormed(w)
    requires Stable(v) + x == Stable(w) + y
    ensures Denote(v) == Denote(w) && x == y
    decreases v, 0, |v.fields| + 1
  {
    var s, t := SortByKey(Defined(v.fields)), SortByKey(Defined(w.fields));
    SortedFieldsOf(v, v.fields);
    SortedFieldsOf(w, w.fields);
    var a, b := FieldsText(v, s, x), FieldsText(w, t, y);
    ObjUnfold(v, x);
    ObjUnfold(w, y);
    HeadTail('{', a, '{', b);
    FieldsPrefix(v, s, w, t, x, y);
    PairwiseDenote(v, s, w, t);
  }

  ghost function ItemsText(v: Value, vs: seq<Value>, x: string): string
    requires forall i :: 0 <= i < |vs| ==> vs[i] < v
  {
    StableItems(v, vs) + "]" + x
  }

  ghost function ItemsRest(v: Value, vs: seq<Value>, x: string): string
    requires vs != [] && forall i :: 0 <= i < |vs| ==> vs[i] < v
  {
    if |vs| == 1 then [']'] + x else [','] + ItemsText(v, vs[1..], x)
  }

  lemma ItemsUnfold(v: Value, vs: seq<Value>, x: string)
    requires forall i :: 0 <= i < |vs| ==> vs[i] < v
    ensures vs == [] ==> ItemsText(v, vs, x) == [']'] + x
    ensures vs != [] ==> ItemsText(v, vs, x) == Stable(vs[0]) + ItemsRest(v, vs, x)
    ensures ItemsText(v, vs, x)[0] == ']' <==> vs == []
  {
    if vs != [] {
      var s := Stable(vs[0]);
      if |vs| == 1 {
        Assoc(s, "]", x);
      } else {
        var r := StableItems(v, vs[1..]);
        assert StableItems(v, vs) == (s + ",") + r;
        Assoc4(s, ",", r, "]", x);
      }
      FirstChar(vs[0]);
      assert (Stable(vs[0]) + ItemsRest(v, vs, x))[0] == Stable(vs[0])[0];
    }
  }

  lemma {:induction false} ItemsPrefix(v: Value, vs: seq<Value>, w: Value, ws: seq<Value>, x: string, y: string)
    requires forall i :: 0 <= i < |vs| ==> vs[i] < v && WellFormed(vs[i])
    requires forall i :: 0 <= i < |ws| ==> ws[i] < w && WellFormed(ws[i])
    requires ItemsText(v, vs, x) == ItemsText(w, ws, y)
    ensures |vs| == |ws| && x == y
    ensures forall i :: 0 <= i < |vs| ==> Denote(vs[i]) == Denote(ws[i])
    decreases v, 0, |vs|
  {
    ItemsUnfold(v, vs, x);
    ItemsUnfold(w, ws, y);
    if vs == [] {
      HeadTail(']', x, ']', y);
    } else {
      var x', y' := ItemsRest(v, vs, x), ItemsRest(w, ws, y);
      StablePrefix(vs[0], ws[0], x', y');
      HeadTail(x'[0], x'[1..], y'[0], y'[1..]);
      if |vs| > 1 {
        ItemsPrefix(v, vs[1..], w, ws[1..], x, y);
        forall i | 0 <= i < |vs| ensures Denote(vs[i]) == Denote(ws[i]) {
          if i > 0 { assert vs[i] == vs[1..][i - 1] && ws[i] == ws[1..][i - 1]; }
        }
      }
    }
  }

  ghost predicate SameEntry(f: Field, g: Field) {
    f.key == g.key && Denote(f.value) == Denote(g.value)
  }

  ghost function FieldsText(v: Value, fs: seq<Field>, x: string): string
    requires Within(v, fs)
  {
    StableFields(v, fs) + "}" + x
  }

  ghost function FieldsRest(v: Value, fs: seq<Field>, x: string): string
    requires fs != [] && Within(v, fs)
  {
    if |fs| == 1 then ['}'] + x else [','] + FieldsText(v, fs[1..], x)
  }

  lemma FieldsUnfold(v: Value, fs: seq<Field>, x: string)
    requires Within(v, fs)
    ensures fs == [] ==> FieldsText(v, fs, x) == ['}'] + x
    ensures fs != [] ==>
              FieldsText(v, fs, x) == Quote(fs[0].key) + ([':'] + (Stable(fs[0].value) + FieldsRest(v, fs, x)))
    ensures FieldsText(v, fs, x)[0] == '}' <==> fs == []
  {
    if fs != [] {
      var q, s := Quote(fs[0].key), Stable(fs[0].value);
      var r := [':'] + (s + FieldsRest(v, fs, x));
      var entry := (q + ":") + s;
      if |fs| == 1 {
        Assoc(entry, "}", x);
      } else {
        var rest := StableFields(v, fs[1..]);
        assert StableFields(v, fs) == (entry + ",") + rest;
        Assoc4(entry, ",", rest, "}", x);
      }
      assert FieldsText(v, fs, x) == entry + FieldsRest(v, fs, x);
      Assoc(q + ":", s, FieldsRest(v, fs, x));
      Assoc(q, ":", s + FieldsRest(v, fs, x));
      assert (q + r)[0] == q[0] == '"';
    }
  }

  lemma {:induction false} FieldsPrefix(v: Value, fs: seq<Field>, w: Value, gs: seq<Field>, x: string, y: string)
    requires Within(v, fs) && Within(w, gs)
    requires forall f :: f in fs || f in gs ==> WellFormed(f.value)
    requires FieldsText(v, fs, x) == FieldsText(w, gs, y)
    ensures |fs| == |gs| && x == y
    ensures forall i :: 0 <= i < |fs| ==> SameEntry(fs[i], gs[i])
    decreases v, 0, |fs|
  {
    hide Denote, Stable, StableFields, Quote, FieldsText;
    FieldsUnfold(v, fs, x);
    FieldsUnfold(w, gs, y);
    if fs == [] {
      HeadTail('}', x, '}', y);
    } else {
      var x', y' := FieldsRest(v, fs, x), FieldsRest(w, gs, y);
      assert fs[0] in fs && gs[0] in gs;
      var a, b := Stable(fs[0].value) + x', Stable(gs[0].value) + y';
      QuotePrefix(fs[0].key, gs[0].key, [':'] + a, [':'] + b);
      HeadTail(':', a, ':', b);
      StablePrefix(fs[0].value, gs[0].value, x', y');
      HeadTail(x'[0], x'[1..], y'[0], y'[1..]);
      if |fs| > 1 {
        FieldsPrefix(v, fs[1..], w, gs[1..], x, y);
        forall i | 0 <= i < |fs| ensures SameEntry(fs[i], gs[i]) {
          if i > 0 { assert fs[i] == fs[1..][i - 1] && gs[i] == gs[1..][i - 1]; }
        }
      }
    }
  }

  lemma {:induction false} PairwiseDenote(v: Value, fs: seq<Field>, w: Value, gs: seq<Field>)
    requires Within(v, fs) && Within(w, gs)
    requires |fs| == |gs| && forall i :: 0 <= i < |fs| ==> SameEntry(fs[i], gs[i])
    requires AllDefined(fs) && AllDefined(gs)
    ensures DenoteFields(v, fs) == DenoteFields(w, gs)
  {
    if fs != [] {
      assert SameEntry(fs[0], gs[0]);
      forall i | 0 <= i < |fs[1..]| ensures SameEntry(fs[1..][i], gs[1..][i]) {
        assert SameEntry(fs[i + 1], gs[i + 1]);
      }
      PairwiseDenote(v, fs[1..], w, gs[1..]);
    }
  }

  // ---------- Sorting and dropping undefined fields keep the meaning ----------

  predicate AllDefined(fs: seq<Field>) {
    forall i :: 0 <= i < |fs| ==> !fs[i].value.Undefined?
  }

  lemma {:induction false} InsertKeepsSorted(f: Field, fs: seq<Field>)
    requires SortedKeys(fs)
    requires forall i :: 0 <= i < |fs| ==> fs[i].key != f.key
    ensures SortedKeys(Insert(f, fs))
  {
    if fs == [] {
    } else if !KeyLess(fs[0].key, f.key) {
      KeyLessTotal(fs[0].key, f.key);
      forall i | 0 <= i < |fs| ensures KeyLess(f.key, fs[i].key) {
        if i > 0 { KeyLessTransitive(f.key, fs[0].key, fs[i].key); }
      }
    } else {
      InsertKeepsSorted(f, fs[1..]);
      var r := Insert(f, fs[1..]);
      forall i | 0 <= i < |r| ensures KeyLess(fs[0].key, r[i].key) {
        assert r[i] in multiset(r);
        assert r[i] == f || r[i] in fs[1..];
      }
    }
  }

  lemma {:induction false} SortSorts(fs: seq<Field>)
    requires UniqueKeys(fs)
    ensures SortedKeys(SortByKey(fs))
  {
    if fs != [] {
      SortSorts(fs[1..]);
      var r := SortByKey(fs[1..]);
      forall i | 0 <= i < |r| ensures r[i].key != fs[0].key {
        assert r[i] in multiset(r);
        assert r[i] in fs[1..];
      }
      InsertKeepsSorted(fs[0], r);
    }
  }

  lemma {:induction false} DefinedKeepsUnique(fs: seq<Field>)
    requires UniqueKeys(fs)
    ensures UniqueKeys(Defined(fs))
  {
    if fs != [] {
      DefinedKeepsUnique(fs[1..]);
      var d := Defined(fs[1..]);
      forall i | 0 <= i < |d| ensures d[i].key != fs[0].key {
        assert d[i] in fs[1..];
      }
    }
  }

  lemma SortedIsUnique(fs: seq<Field>)
    requires SortedKeys(fs)
    ensures UniqueKeys(fs)
  {
    forall i, j | 0 <= i < j < |fs| ensures fs[i].key != fs[j].key {
      KeyLessTotal(fs[i].key, fs[j].key);
    }
  }

  /** The map a field list denotes, entry by entry. */
  lemma {:induction false} FieldsSpec(whole: Value, fs: seq<Field>)
    requires Within(whole, fs) && UniqueKeys(fs)
    ensures forall k :: k in DenoteFields(whole, fs) ==> exists f :: f in fs && f.key == k && !f.value.Undefined?
    ensures forall f :: f in fs && !f.value.Undefined? ==>
              f.key in DenoteFields(whole, fs) && DenoteFields(whole, fs)[f.key] == Denote(f.value)
  {
    if fs != [] {
      FieldsSpec(whole, fs[1..]);
      assert fs[0] in fs;
      forall f | f in fs && !f.value.Undefined?
        ensures f.key in DenoteFields(whole, fs) && DenoteFields(whole, fs)[f.key] == Denote(f.value)
      {
        if f != fs[0] { assert f in fs[1..]; }
      }
    }
  }

  lemma SortedFieldsOf(v: Value, fs: seq<Field>)
    requires Within(v, fs) && UniqueKeys(fs)
    ensures var s := SortByKey(Defined(fs));
            && Within(v, s) && SortedKeys(s) && AllDefined(s)
            && DenoteFields(v, s) == DenoteFields(v, fs)
            && forall f :: f in s ==> f in fs
  {
    SortedWithin(v, fs);
    DefinedKeepsUnique(fs);
    SortSorts(Defined(fs));
    var s := SortByKey(Defined(fs));
    SortedIsUnique(s);
    forall f ensures f in s <==> f in Defined(fs) {
      assert f in s <==> f in multiset(s);
      assert f in Defined(fs) <==> f in multiset(Defined(fs));
    }
    SameEntriesSameMap(v, s, fs);
  }

  lemma SameEntriesSameMap(whole: Value, s: seq<Field>, fs: seq<Field>)
    requires Within(whole, s) && UniqueKeys(s) && Within(whole, fs) && UniqueKeys(fs)
    requires forall f :: f in s <==> f in fs && !f.value.Undefined?
    ensures DenoteFields(whole, s) == DenoteFields(whole, fs)
  {
    FieldsSpec(whole, s);
    FieldsSpec(whole, fs);
    var m, n := DenoteFields(whole, s), DenoteFields(whole, fs);
    forall k | k in m ensures k in n && m[k] == n[k] {
      var f :| f in s && f.key == k && !f.value.Undefined?;
      assert f in fs;
    }
    forall k | k in n ensures k in m {
      var f :| f in fs && f.key == k && !f.value.Undefined?;
      assert f in s;
    }
  }

  // ---------- Nothing else is looked at: equal documents mean equal text ----------

  lemma {:induction false} DenotationDecides(v: Value, w: Value)
    requires WellFormed(v) && WellFormed(w)
    requires Denote(v) == Denote(w)
    ensures Stable(v) == Stable(w)
    decreases v, 1
  {
    match (v, w)
    case (Arr(vs), Arr(ws)) =>
      forall i | 0 <= i < |vs| ensures |vs| == |ws| && Denote(vs[i]) == Denote(ws[i]) {
        assert Denote(v).items[i] == Denote(w).items[i];
      }
      assert |vs| == |Denote(v).items| == |Denote(w).items| == |ws|;
      ItemsDecide(v, vs, w, ws);
    case (Obj(fs), Obj(gs)) =>
      SortedFieldsOf(v, fs);
      SortedFieldsOf(w, gs);
      FieldsDecide(v, SortByKey(Defined(fs)), w, SortByKey(Defined(gs)));
    case _ =>
  }

  lemma {:induction false} ItemsDecide(v: Value, vs: seq<Value>, w: Value, ws: seq<Value>)
    requires forall i :: 0 <= i < |vs| ==> vs[i] < v && WellFormed(vs[i])
    requires forall i :: 0 <= i < |ws| ==> ws[i] < w && WellFormed(ws[i])
    requires |vs| == |ws| && forall i :: 0 <= i < |vs| ==> Denote(vs[i]) == Denote(ws[i])
    ensures StableItems(v, vs) == StableItems(w, ws)
    decreases v, 0, |vs|
  {
    if vs != [] {
      DenotationDecides(vs[0], ws[0]);
      ItemsDecide(v, vs[1..], w, ws[1..]);
    }
  }

  lemma {:induction false} FieldsDecide(v: Value, fs: seq<Field>, w: Value, gs: seq<Field>)
    requires Within(v, fs) && Within(w, gs)
    requires forall f :: f in fs || f in gs ==> WellFormed(f.value)
    requires SortedKeys(fs) && SortedKeys(gs) && AllDefined(fs) && AllDefined(gs)
    requires DenoteFields(v, fs) == DenoteFields(w, gs)
    ensures StableFields(v, fs) == StableFields(w, gs)
    decreases v, 0, |fs|
  {
    if fs == [] {
      SortedIsUnique(gs);
      assert gs == [] by { if gs != [] { FirstEntry(w, gs); } }
    } else {
      FirstsAgree(v, fs, w, gs);
      hide Denote, DenoteFields, WellFormed, SortedKeys, AllDefined;
      DenotationDecides(fs[0].value, gs[0].value);
      FieldsDecide(v, fs[1..], w, gs[1..]);
    }
  }

  /** Sorted members that denote the same start with the same one, and so do what is left of them. */
  lemma FirstsAgree(v: Value, fs: seq<Field>, w: Value, gs: seq<Field>)
    requires Within(v, fs) && Within(w, gs) && fs != []
    requires SortedKeys(fs) && SortedKeys(gs) && AllDefined(fs) && AllDefined(gs)
    requires DenoteFields(v, fs) == DenoteFields(w, gs)
    ensures gs != [] && fs[0].key == gs[0].key && Denote(fs[0].value) == Denote(gs[0].value)
    ensures Within(v, fs[1..]) && Within(w, gs[1..]) && DenoteFields(v, fs[1..]) == DenoteFields(w, gs[1..])
    ensures SortedKeys(fs[1..]) && SortedKeys(gs[1..]) && AllDefined(fs[1..]) && AllDefined(gs[1..])
    ensures fs[0] in fs && gs[0] in gs
  {
    SortedIsUnique(fs);
    SortedIsUnique(gs);
    hide Denote, DenoteFields;
    FieldsSpec(v, fs);
    FieldsSpec(w, gs);
    LeastKeysAgree(fs, gs, DenoteFields(v, fs));
    FirstEntry(v, fs);
    FirstEntry(w, gs);
  }

  lemma FirstEntry(whole: Value, fs: seq<Field>)
    requires Within(whole, fs) && UniqueKeys(fs) && AllDefined(fs) && fs != []
    ensures Within(whole, fs[1..]) && fs[0] in fs
    ensures fs[0].key in DenoteFields(whole, fs)
    ensures DenoteFields(whole, fs)[fs[0].key] == Denote(fs[0].value)
    ensures DenoteFields(whole, fs[1..]) == DenoteFields(whole, fs) - {fs[0].key}
  {
    var m := DenoteFields(whole, fs[1..]);
    FieldsSpec(whole, fs[1..]);
    assert fs[0].key !in m;
    UpdateRemove(m, fs[0].key, Denote(fs[0].value));
  }

  lemma UpdateRemove(m: map<string, Canon>, k: string, c: Canon)
    requires k !in m
    ensures m[k := c] - {k} == m
  {
  }

  /** Two sorted field lists over one set of keys start with the same key. */
  lemma LeastKeysAgree(fs: seq<Field>, gs: seq<Field>, m: map<string, Canon>)
    requires fs != [] && SortedKeys(fs) && SortedKeys(gs)
    requires forall f :: f in fs || f in gs ==> f.key in m
    requires forall k :: k in m ==> (exists f :: f in fs && f.key == k) && (exists g :: g in gs && g.key == k)
    ensures gs != [] && fs[0].key == gs[0].key
  {
    assert fs[0] in fs;
    var g :| g in gs && g.key == fs[0].key;
    FirstIsLeast(gs, g);
    assert gs[0] in gs;
    var f :| f in fs && f.key == gs[0].key;
    FirstIsLeast(fs, f);
    KeyLessTotal(fs[0].key, gs[0].key);
  }

  lemma FirstIsLeast(fs: seq<Field>, f: Field)
    requires SortedKeys(fs) && f in fs
    ensures f.key == fs[0].key || KeyLess(fs[0].key, f.key)
  {
  }

  /** `stable` is a canonical form: two JavaScript values serialise equally exactly when they denote the
      same JSON document. Object key order, fields holding undefined, and undefined read as null elsewhere
      do not matter, and nothing else is forgotten. */
  lemma StableIsCanonical(v: Value, w: Value)
    requires WellFormed(v) && WellFormed(w)
    ensures Stable(v) == Stable(w) <==> Denote(v) == Denote(w)
  {
    if Stable(v) == Stable(w) {
      assert Stable(v) + [] == Stable(w) + [];
      StablePrefix(v, w, [], []);
    }
    if Denote(v) == Denote(w) {
      DenotationDecides(v, w);
    }
  }
}
