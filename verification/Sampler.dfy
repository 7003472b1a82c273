/** `pickProductIds`: a deterministic, fair sample of the catalogue, round-robin over product types with
    the richest products of each type first. */
module Sampler {
  import opened CanonicalJson
  import opened Collections

  datatype Product = Product(id: string, typ: string)

  datatype Entry = Entry(id: string, variants: nat)

  // ---------- Buckets ----------

  function Variants(byId: map<string, nat>, id: string): nat {
    if id in byId then byId[id] else 0
  }

  /** The entries of one type, in the order the products came. */
  function EntriesOf(products: seq<Product>, byId: map<string, nat>, typ: string): seq<Entry> {
    if products == [] then []
    else
      var p := products[|products| - 1];
      EntriesOf(products[..|products| - 1], byId, typ)
      + if p.typ == typ then [Entry(p.id, Variants(byId, p.id))] else []
  }

  /** More variants first, then by id. */
  predicate Richer(a: Entry, b: Entry) {
    a.variants > b.variants || (a.variants == b.variants && (a.id == b.id || KeyLess(a.id, b.id)))
  }

  predicate Ordered(es: seq<Entry>) {
    forall i, j :: 0 <= i < j < |es| ==> Richer(es[i], es[j])
  }

  function InsertEntry(e: Entry, es: seq<Entry>): (r: seq<Entry>)
    ensures multiset(r) == multiset{e} + multiset(es)
  {
    if es == [] || Richer(e, es[0]) then [e] + es
    else assert es == [es[0]] + es[1..]; [es[0]] + InsertEntry(e, es[1..])
  }

  function SortEntries(es: seq<Entry>): (r: seq<Entry>)
    ensures multiset(r) == multiset(es)
  {
    if es == [] then []
    else assert es == [es[0]] + es[1..]; InsertEntry(es[0], SortEntries(es[1..]))
  }

  lemma RicherTotal(a: Entry, b: Entry, c: Entry)
    ensures Richer(a, b) || Richer(b, a)
    ensures Richer(a, b) && Richer(b, c) ==> Richer(a, c)
  {
    KeyLessTotal(a.id, b.id);
    if KeyLess(a.id, b.id) && KeyLess(b.id, c.id) { KeyLessTransitive(a.id, b.id, c.id); }
  }

  lemma {:induction false} InsertOrdered(e: Entry, es: seq<Entry>)
    requires Ordered(es)
    ensures Ordered(InsertEntry(e, es))
  {
    if es != [] {
      if Richer(e, es[0]) {
        forall i | 0 <= i < |es| ensures Richer(e, es[i]) {
          if i > 0 { RicherTotal(e, es[0], es[i]); }
        }
      } else {
        InsertOrdered(e, es[1..]);
        RicherTotal(e, es[0], e);
        var r := InsertEntry(e, es[1..]);
        forall i | 0 <= i < |r| ensures Richer(es[0], r[i]) {
          assert r[i] in multiset(r);
          assert r[i] == e || r[i] in es[1..];
        }
      }
    }
  }

  lemma {:induction false} SortIsOrdered(es: seq<Entry>)
    ensures Ordered(SortEntries(es))
  {
    if es != [] {
      SortIsOrdered(es[1..]);
      InsertOrdered(es[0], SortEntries(es[1..]));
    }
  }

  /** More variants come first, and of as many the lower id. */
  lemma SortOrders(es: seq<Entry>)
    ensures var s := SortEntries(es);
            && multiset(s) == multiset(es)
            && forall i, j :: 0 <= i < j < |s| ==>
                 s[i].variants >= s[j].variants
                 && (s[i].variants == s[j].variants && s[i].id != s[j].id ==> KeyLess(s[i].id, s[j].id))
  {
    hide SortEntries, KeyLess;
    SortIsOrdered(es);
  }

  /** A type's bucket holds its products, each with the count of its variants, or none. */
  lemma {:induction false} BucketHolds(products: seq<Product>, byId: map<string, nat>, typ: string, e: Entry)
    ensures e in EntriesOf(products, byId, typ) <==>
            Product(e.id, typ) in products && e.variants == if e.id in byId then byId[e.id] else 0
    ensures |EntriesOf(products, byId, typ)| == Several(products, typ)
  {
    if products != [] {
      var n := |products| - 1;
      BucketHolds(products[..n], byId, typ, e);
      assert products == products[..n] + [products[n]];
      var p := products[n];
      assert p == Product(p.id, p.typ);
    }
  }

  /** How many products are of the type. */
  function Several(products: seq<Product>, typ: string): nat {
    if products == [] then 0
    else Several(products[..|products| - 1], typ) + if products[|products| - 1].typ == typ then 1 else 0
  }

  function InsertType(t: string, ts: seq<string>): seq<string> {
    if ts == [] || !KeyLess(ts[0], t) then [t] + ts else [ts[0]] + InsertType(t, ts[1..])
  }

  function SortTypes(ts: seq<string>): seq<string> {
    if ts == [] then [] else InsertType(ts[0], SortTypes(ts[1..]))
  }

  /** The types present, each once, in the order they first appear. */
  function TypesOf(products: seq<Product>): (r: seq<string>)
    ensures forall t :: t in r <==> exists i :: 0 <= i < |products| && products[i].typ == t
  {
    if products == [] then []
    else
      var init, p := products[..|products| - 1], products[|products| - 1];
      assert products == init + [p];
      assert forall i :: 0 <= i < |init| ==> init[i] == products[i];
      var r := TypesOf(init);
      if p.typ in r then r else r + [p.typ]
  }

  /** Each type's bucket, richest first, the types in order. */
  function Buckets(products: seq<Product>, byId: map<string, nat>): seq<seq<Entry>> {
    var types := SortTypes(TypesOf(products));
    seq(|types|, i requires 0 <= i < |types| => SortEntries(EntriesOf(products, byId, types[i])))
  }

  // ---------- The closed form: buckets read column by column ----------

  /** A pick: the position of its type, and its place in that type's bucket. */
  datatype Pick = Pick(typ: nat, rank: nat)

  /** Column `round`, over the first `upTo` buckets. */
  function Column(buckets: seq<seq<Entry>>, round: nat, upTo: nat): seq<Pick>
    requires upTo <= |buckets|
  {
    if upTo == 0 then []
    else Column(buckets, round, upTo - 1) + if round < |buckets[upTo - 1]| then [Pick(upTo - 1, round)] else []
  }

  function Columns(buckets: seq<seq<Entry>>, rounds: nat): seq<Pick> {
    if rounds == 0 then [] else Columns(buckets, rounds - 1) + Column(buckets, rounds - 1, |buckets|)
  }

  function Longest(buckets: seq<seq<Entry>>): (n: nat)
    ensures forall i :: 0 <= i < |buckets| ==> |buckets[i]| <= n
  {
    if buckets == [] then 0
    else
      var n := Longest(buckets[1..]);
      if |buckets[0]| > n then |buckets[0]| else n
  }

  function All(buckets: seq<seq<Entry>>): seq<Pick> {
    Columns(buckets, Longest(buckets))
  }

  function First(picks: seq<Pick>, limit: int): seq<Pick> {
    if limit <= 0 then [] else if limit < |picks| then picks[..limit] else picks
  }

  predicate InBuckets(buckets: seq<seq<Entry>>, p: Pick) {
    p.typ < |buckets| && p.rank < |buckets[p.typ]|
  }

  predicate AllInBuckets(buckets: seq<seq<Entry>>, picks: seq<Pick>) {
    forall i :: 0 <= i < |picks| ==> InBuckets(buckets, picks[i])
  }

  function Ids(buckets: seq<seq<Entry>>, picks: seq<Pick>): (ids: seq<string>)
    requires AllInBuckets(buckets, picks)
    ensures |ids| == |picks|
  {
    seq(|picks|, i requires 0 <= i < |picks| => buckets[picks[i].typ][picks[i].rank].id)
  }

  lemma {:induction false} ColumnMember(buckets: seq<seq<Entry>>, round: nat, upTo: nat, p: Pick)
    requires upTo <= |buckets|
    ensures p in Column(buckets, round, upTo) <==> p.rank == round && p.typ < upTo && round < |buckets[p.typ]|
  {
    if upTo > 0 { ColumnMember(buckets, round, upTo - 1, p); }
  }

  lemma {:induction false} ColumnOrder(buckets: seq<seq<Entry>>, round: nat, upTo: nat)
    requires upTo <= |buckets|
    ensures InOrder(Column(buckets, round, upTo))
  {
    if upTo > 0 {
      ColumnOrder(buckets, round, upTo - 1);
      var init := Column(buckets, round, upTo - 1);
      forall p | p in init ensures Before(p, Pick(upTo - 1, round)) { ColumnMember(buckets, round, upTo - 1, p); }
      OrderConcat(init, if round < |buckets[upTo - 1]| then [Pick(upTo - 1, round)] else []);
    }
  }

  /** Columns come round by round, and within a round type by type. */
  predicate Before(p: Pick, q: Pick) {
    p.rank < q.rank || (p.rank == q.rank && p.typ < q.typ)
  }

  ghost predicate InOrder(picks: seq<Pick>) {
    forall i, j :: 0 <= i < j < |picks| ==> Before(picks[i], picks[j])
  }

  lemma OrderConcat(a: seq<Pick>, b: seq<Pick>)
    requires InOrder(a) && InOrder(b)
    requires forall p, q :: p in a && q in b ==> Before(p, q)
    ensures InOrder(a + b)
  {
    assert forall i :: 0 <= i < |a| ==> a[i] in a;
    assert forall j :: 0 <= j < |b| ==> b[j] in b;
  }

  lemma {:induction false} ColumnsMember(buckets: seq<seq<Entry>>, rounds: nat, p: Pick)
    ensures p in Columns(buckets, rounds) <==> InBuckets(buckets, p) && p.rank < rounds
  {
    hide Column, InBuckets;
    if rounds > 0 {
      ColumnsMember(buckets, rounds - 1, p);
      RoundEnd(buckets, rounds - 1);
      hide Columns;
      ColumnMember(buckets, rounds - 1, |buckets|, p);
      InEither(Columns(buckets, rounds - 1), Column(buckets, rounds - 1, |buckets|), p);
      RankBelow(buckets, p);
    }
  }

  lemma OrderOne()
    ensures InOrder([])
  {
  }

  lemma InEither(a: seq<Pick>, b: seq<Pick>, p: Pick)
    ensures p in a + b <==> p in a || p in b
  {
  }

  lemma RankBelow(buckets: seq<seq<Entry>>, p: Pick)
    ensures InBuckets(buckets, p) <==> p.typ < |buckets| && p.rank < |buckets[p.typ]|
  {
  }

  lemma {:induction false} ColumnsOrder(buckets: seq<seq<Entry>>, rounds: nat)
    ensures InOrder(Columns(buckets, rounds))
  {
    hide Column, InBuckets, InOrder;
    if rounds == 0 {
      OrderOne();
    } else {
      ColumnsOrder(buckets, rounds - 1);
      ColumnOrder(buckets, rounds - 1, |buckets|);
      RoundEnd(buckets, rounds - 1);
      hide Columns;
      var a, b := Columns(buckets, rounds - 1), Column(buckets, rounds - 1, |buckets|);
      forall p, q | p in a && q in b ensures Before(p, q) {
        ColumnsMember(buckets, rounds - 1, p);
        ColumnMember(buckets, rounds - 1, |buckets|, q);
      }
      OrderConcat(a, b);
    }
  }

  lemma {:induction false} ColumnsPrefix(buckets: seq<seq<Entry>>, r: nat, s: nat)
    requires r <= s
    ensures Columns(buckets, r) <= Columns(buckets, s)
    decreases s - r
  {
    if r < s { ColumnsPrefix(buckets, r, s - 1); }
  }

  lemma {:induction false} ColumnsStop(buckets: seq<seq<Entry>>, r: nat)
    requires Longest(buckets) <= r
    ensures Columns(buckets, r) == All(buckets)
  {
    if Longest(buckets) < r {
      ColumnsStop(buckets, r - 1);
      BeyondLongest(buckets, r - 1, |buckets|);
      EmptyRound(buckets, r);
      hide Columns, Longest;
    }
  }

  lemma EmptyRound(buckets: seq<seq<Entry>>, r: nat)
    requires r > 0 && Column(buckets, r - 1, |buckets|) == []
    ensures Columns(buckets, r) == Columns(buckets, r - 1)
  {
    hide Column;
  }

  lemma {:induction false} BeyondLongest(buckets: seq<seq<Entry>>, round: nat, upTo: nat)
    requires upTo <= |buckets| && Longest(buckets) <= round
    ensures Column(buckets, round, upTo) == []
  {
    if upTo > 0 { BeyondLongest(buckets, round, upTo - 1); }
  }

  lemma ColumnPrefix(buckets: seq<seq<Entry>>, round: nat, upTo: nat)
    requires upTo <= |buckets|
    ensures Column(buckets, round, upTo) <= Column(buckets, round, |buckets|)
    decreases |buckets| - upTo
  {
    if upTo < |buckets| { ColumnPrefix(buckets, round, upTo + 1); }
  }

  lemma AllSpec(buckets: seq<seq<Entry>>)
    ensures forall p :: p in All(buckets) <==> InBuckets(buckets, p)
    ensures InOrder(All(buckets)) && AllInBuckets(buckets, All(buckets))
  {
    forall p: Pick ensures p in All(buckets) <==> InBuckets(buckets, p) { ColumnsMember(buckets, Longest(buckets), p); }
    ColumnsOrder(buckets, Longest(buckets));
    var all := All(buckets);
    assert forall i :: 0 <= i < |all| ==> all[i] in all;
  }

  /** What has been picked after whole rounds and part of the next is where the closed form begins. */
  lemma PartialRounds(buckets: seq<seq<Entry>>, round: nat, upTo: nat)
    requires upTo <= |buckets|
    ensures Columns(buckets, round) + Column(buckets, round, upTo) <= All(buckets)
  {
    hide Column, All;
    var n := if round + 1 < Longest(buckets) then Longest(buckets) else round + 1;
    RoundEnd(buckets, round);
    ColumnPrefix(buckets, round, upTo);
    ColumnsPrefix(buckets, round + 1, n);
    ColumnsStop(buckets, n);
    hide Columns, Longest;
    PrefixGrows(Columns(buckets, round), Column(buckets, round, upTo), Column(buckets, round, |buckets|));
  }

  lemma PrefixGrows(a: seq<Pick>, b: seq<Pick>, c: seq<Pick>)
    requires b <= c
    ensures a + b <= a + c
  {
  }

  /** The sampling loop. */
  method RoundRobin(buckets: seq<seq<Entry>>, limit: int) returns (picked: seq<string>)
    ensures AllInBuckets(buckets, First(All(buckets), limit))
    ensures picked == Ids(buckets, First(All(buckets), limit))
  {
    hide Columns, Column, Longest, All, First, InBuckets, AllInBuckets, Ids;
    AllSpec(buckets);
    NoIds(buckets);
    ghost var picks: seq<Pick> := [];
    picked := [];
    var round := 0;
    RoundStart(buckets);
    while |picked| < limit
      invariant AllInBuckets(buckets, picks)
      invariant picks == Columns(buckets, round) && picked == Ids(buckets, picks)
      invariant if limit <= 0 then picks == [] else |picked| <= limit
      invariant picks <= All(buckets)
      decreases limit - |picked|
    {
      var addedThisRound := false;
      var t := 0;
      ghost var before := picks;
      while t < |buckets| && |picked| < limit
        invariant t <= |buckets| && |before| <= |picks|
        invariant AllInBuckets(buckets, picks)
        invariant picks == before + Column(buckets, round, t) && picked == Ids(buckets, picks)
        invariant |picked| <= limit
        invariant addedThisRound <==> |picks| > |before|
        decreases |buckets| - t
      {
        ColumnStep(buckets, round, t);
        if round < |buckets[t]| {
          RankInBucket(buckets, t, round);
          IdsStep(buckets, picks, Pick(t, round));
          picked := picked + [buckets[t][round].id];
          ghost var grown := picks + [Pick(t, round)];
          assert grown == before + Column(buckets, round, t + 1);
          picks := grown;
          addedThisRound := true;
        }
        t := t + 1;
      }
      PartialRounds(buckets, round, t);
      if t < |buckets| || |picked| == limit {
        FirstIsPrefix(All(buckets), picks, limit);
        return;
      }
      if !addedThisRound {
        assert Column(buckets, round, |buckets|) == [];
        EmptyColumn(buckets, round);
        ColumnsStop(buckets, round);
        FirstIsAll(All(buckets), limit);
        return;
      }
      RoundEnd(buckets, round);
      round := round + 1;
    }
    FirstIsPrefix(All(buckets), picks, limit);
  }

  lemma NoIds(buckets: seq<seq<Entry>>)
    ensures AllInBuckets(buckets, []) && Ids(buckets, []) == []
  {
  }

  lemma IdsStep(buckets: seq<seq<Entry>>, picks: seq<Pick>, p: Pick)
    requires AllInBuckets(buckets, picks) && InBuckets(buckets, p)
    ensures AllInBuckets(buckets, picks + [p])
    ensures Ids(buckets, picks + [p]) == Ids(buckets, picks) + [buckets[p.typ][p.rank].id]
  {
  }

  lemma FirstIsPrefix(all: seq<Pick>, picks: seq<Pick>, limit: int)
    requires picks <= all && |picks| == if limit <= 0 then 0 else limit
    ensures First(all, limit) == picks
  {
  }

  lemma FirstIsAll(all: seq<Pick>, limit: int)
    requires |all| <= limit
    ensures First(all, limit) == all
  {
  }

  lemma RoundStart(buckets: seq<seq<Entry>>)
    ensures Columns(buckets, 0) == [] && forall round :: |buckets| >= 0 ==> Column(buckets, round, 0) == []
  {
  }

  lemma RoundEnd(buckets: seq<seq<Entry>>, round: nat)
    ensures Columns(buckets, round + 1) == Columns(buckets, round) + Column(buckets, round, |buckets|)
  {
  }

  lemma RankInBucket(buckets: seq<seq<Entry>>, t: nat, rank: nat)
    requires t < |buckets| && rank < |buckets[t]|
    ensures InBuckets(buckets, Pick(t, rank))
  {
  }

  lemma ColumnStep(buckets: seq<seq<Entry>>, round: nat, t: nat)
    requires t < |buckets|
    ensures Column(buckets, round, t + 1) ==
            Column(buckets, round, t) + if round < |buckets[t]| then [Pick(t, round)] else []
  {
  }

  lemma EmptyColumn(buckets: seq<seq<Entry>>, round: nat)
    requires Column(buckets, round, |buckets|) == []
    ensures Longest(buckets) <= round
  {
    forall i | 0 <= i < |buckets| ensures |buckets[i]| <= round {
      ColumnMember(buckets, round, |buckets|, Pick(i, round));
    }
    LongestLeast(buckets, round);
  }

  lemma {:induction false} LongestLeast(buckets: seq<seq<Entry>>, n: nat)
    requires forall i :: 0 <= i < |buckets| ==> |buckets[i]| <= n
    ensures Longest(buckets) <= n
  {
    if buckets != [] { LongestLeast(buckets[1..], n); }
  }

  /** The buckets of the products so far, their types in the order they came up. */
  ghost predicate Bucketed(products: seq<Product>, byId: map<string, nat>, byType: map<string, seq<Entry>>,
                           order: seq<string>)
  {
    && order == TypesOf(products)
    && (forall t :: t in byType <==> t in order)
    && (forall t :: t in byType ==> byType[t] == EntriesOf(products, byId, t))
    && forall t :: t !in byType ==> EntriesOf(products, byId, t) == []
  }

  lemma TypesSnoc(products: seq<Product>, i: nat)
    requires i < |products|
    ensures var before := TypesOf(products[..i]);
            TypesOf(products[..i + 1]) == if products[i].typ in before then before else before + [products[i].typ]
  {
    assert products[..i + 1][..i] == products[..i];
  }

  lemma BucketedStep(products: seq<Product>, byId: map<string, nat>, byType: map<string, seq<Entry>>,
                     order: seq<string>, i: nat)
    requires i < |products| && Bucketed(products[..i], byId, byType, order)
    ensures var p := products[i];
            var bucket := if p.typ in byType then byType[p.typ] else [];
            Bucketed(products[..i + 1], byId, byType[p.typ := bucket + [Entry(p.id, Variants(byId, p.id))]],
                     if p.typ in byType then order else order + [p.typ])
  {
    hide TypesOf, EntriesOf, Variants;
    TypesSnoc(products, i);
    EntriesSnoc(products, byId, i);
    var p, was, now := products[i], products[..i], products[..i + 1];
    var bucket := if p.typ in byType then byType[p.typ] else [];
    var after := byType[p.typ := bucket + [Entry(p.id, Variants(byId, p.id))]];
    forall t | t in after ensures after[t] == EntriesOf(now, byId, t) {
      if t != p.typ { assert EntriesOf(was, byId, t) + [] == EntriesOf(was, byId, t); }
    }
    forall t | t !in after ensures EntriesOf(now, byId, t) == [] {
      assert EntriesOf(was, byId, t) + [] == EntriesOf(was, byId, t);
    }
  }

  method PickProductIds(products: seq<Product>, byId: map<string, nat>, limit: int) returns (picked: seq<string>)
    ensures var buckets := Buckets(products, byId);
            && AllInBuckets(buckets, First(All(buckets), limit))
            && picked == Ids(buckets, First(All(buckets), limit))
  {
    hide SortEntries, SortTypes, EntriesOf, Variants, TypesOf, Bucketed, Ids, AllInBuckets;
    var byType: map<string, seq<Entry>> := map[];
    var order: seq<string> := [];
    NothingBucketed(products, byId);
    for i := 0 to |products|
      invariant Bucketed(products[..i], byId, byType, order)
    {
      var p := products[i];
      BucketedStep(products, byId, byType, order, i);
      var bucket := if p.typ in byType then byType[p.typ] else [];
      if p.typ !in byType { order := order + [p.typ]; }
      byType := byType[p.typ := bucket + [Entry(p.id, Variants(byId, p.id))]];
    }
    assert products[..|products|] == products;
    BucketedIs(products, byId, byType, order);
    var types := SortTypes(order);
    var buckets := seq(|types|, i requires 0 <= i < |types| => SortEntries(byType[types[i]]));
    assert buckets == Buckets(products, byId);
    picked := RoundRobin(buckets, limit);
  }

  lemma NothingBucketed(products: seq<Product>, byId: map<string, nat>)
    ensures Bucketed(products[..0], byId, map[], [])
  {
    NoEntries(byId);
  }

  lemma BucketedIs(products: seq<Product>, byId: map<string, nat>, byType: map<string, seq<Entry>>,
                   order: seq<string>)
    requires Bucketed(products, byId, byType, order)
    ensures order == TypesOf(products)
    ensures forall i :: 0 <= i < |SortTypes(order)| ==>
              SortTypes(order)[i] in byType
              && byType[SortTypes(order)[i]] == EntriesOf(products, byId, SortTypes(order)[i])
  {
    hide EntriesOf, TypesOf;
    SortTypesKeeps(order);
    var types := SortTypes(order);
    forall i | 0 <= i < |types| ensures types[i] in byType { assert types[i] in types; }
  }

  lemma NoEntries(byId: map<string, nat>)
    ensures forall t :: EntriesOf([], byId, t) == []
  {
  }

  lemma EntriesSnoc(products: seq<Product>, byId: map<string, nat>, i: nat)
    requires i < |products|
    ensures forall t :: EntriesOf(products[..i + 1], byId, t) ==
              EntriesOf(products[..i], byId, t)
              + if products[i].typ == t then [Entry(products[i].id, Variants(byId, products[i].id))] else []
  {
    assert products[..i + 1][..i] == products[..i];
  }

  lemma {:induction false} InsertTypeKeeps(t: string, ts: seq<string>)
    ensures forall x :: x in InsertType(t, ts) <==> x == t || x in ts
  {
    if ts != [] { InsertTypeKeeps(t, ts[1..]); }
  }

  lemma {:induction false} SortTypesKeeps(ts: seq<string>)
    ensures forall x :: x in SortTypes(ts) <==> x in ts
  {
    if ts != [] {
      SortTypesKeeps(ts[1..]);
      InsertTypeKeeps(ts[0], SortTypes(ts[1..]));
    }
  }

  // ---------- What the sample promises ----------

  function Total(buckets: seq<seq<Entry>>): nat {
    if buckets == [] then 0 else Total(buckets[..|buckets| - 1]) + |buckets[|buckets| - 1]|
  }

  /** How many picks a type gets. */
  function Count(picks: seq<Pick>, typ: nat): nat {
    if picks == [] then 0
    else Count(picks[..|picks| - 1], typ) + if picks[|picks| - 1].typ == typ then 1 else 0
  }

  /** Picks that come in column order and leave no gap in any bucket. */
  ghost predicate Front(buckets: seq<seq<Entry>>, picks: seq<Pick>) {
    && AllInBuckets(buckets, picks) && InOrder(picks)
    && forall p, q :: p in picks && InBuckets(buckets, q) && Before(q, p) ==> q in picks
  }

  lemma FirstIsFront(buckets: seq<seq<Entry>>, limit: int)
    ensures Front(buckets, First(All(buckets), limit))
  {
    AllSpec(buckets);
    hide All, InBuckets;
    var all, picks := All(buckets), First(All(buckets), limit);
    assert forall i :: 0 <= i < |picks| ==> picks[i] == all[i];
    forall p, q | p in picks && InBuckets(buckets, q) && Before(q, p) ensures q in picks {
      assert q in all;
      var i :| 0 <= i < |picks| && picks[i] == p;
      var j :| 0 <= j < |all| && all[j] == q;
      assert j < i;
      assert picks[j] == q;
    }
  }

  /** A type's picks are the beginning of its bucket: exactly the ranks below its count. */
  lemma {:induction false} PicksArePrefix(buckets: seq<seq<Entry>>, picks: seq<Pick>, typ: nat, rank: nat)
    requires Front(buckets, picks)
    ensures Pick(typ, rank) in picks <==> rank < Count(picks, typ)
    decreases |picks|
  {
    if picks != [] {
      hide Front, InBuckets, AllInBuckets;
      var init, last := picks[..|picks| - 1], picks[|picks| - 1];
      assert picks == init + [last];
      FrontShrinks(buckets, picks);
      PicksArePrefix(buckets, init, typ, rank);
      if last.typ == typ {
        var c := Count(init, typ);
        PicksArePrefix(buckets, init, typ, last.rank);
        PicksArePrefix(buckets, init, typ, c);
        RanksBelow(buckets, picks);
        assert last.rank == c;
      }
    }
  }

  lemma RanksBelow(buckets: seq<seq<Entry>>, picks: seq<Pick>)
    requires Front(buckets, picks) && picks != []
    ensures var last := picks[|picks| - 1];
            forall r: nat :: r < last.rank ==> Pick(last.typ, r) in picks[..|picks| - 1]
  {
    var init, last := picks[..|picks| - 1], picks[|picks| - 1];
    assert picks == init + [last] && last in picks;
    forall r: nat | r < last.rank ensures Pick(last.typ, r) in init {
      assert Before(Pick(last.typ, r), last) && InBuckets(buckets, Pick(last.typ, r));
    }
  }

  lemma FrontShrinks(buckets: seq<seq<Entry>>, picks: seq<Pick>)
    requires Front(buckets, picks) && picks != []
    ensures Front(buckets, picks[..|picks| - 1]) && picks[|picks| - 1] !in picks[..|picks| - 1]
  {
    var init, last := picks[..|picks| - 1], picks[|picks| - 1];
    forall p, q | p in init && InBuckets(buckets, q) && Before(q, p) ensures q in init {
      assert p in picks && q in picks;
      var i :| 0 <= i < |init| && init[i] == p;
      assert Before(picks[i], last);
    }
  }

  /** No type gets more than one pick beyond a type that still has products left. */
  lemma SampleIsFair(buckets: seq<seq<Entry>>, limit: int, left: nat, other: nat)
    requires left < |buckets| && other < |buckets|
    requires Count(First(All(buckets), limit), left) < |buckets[left]|
    ensures Count(First(All(buckets), limit), other) <= Count(First(All(buckets), limit), left) + 1
  {
    hide First, All, Count;
    var picks := First(All(buckets), limit);
    FirstIsFront(buckets, limit);
    var n, m := Count(picks, left), Count(picks, other);
    PicksArePrefix(buckets, picks, left, n);
    PicksArePrefix(buckets, picks, other, n + 1);
    assert Before(Pick(left, n), Pick(other, n + 1)) && InBuckets(buckets, Pick(left, n));
  }

  lemma {:induction false} CountsAddUp(buckets: seq<seq<Entry>>, picks: seq<Pick>)
    requires Whole(buckets, picks)
    requires InOrder(picks)
    ensures |picks| == Total(buckets)
    decreases |buckets|
  {
    FirstPick(picks);
    if buckets != [] {
      hide InBuckets, InOrder, Count, Without;
      assert forall p :: p in picks <==> InBuckets(buckets, p);
      var n := |buckets| - 1;
      var others := Without(picks, n);
      WithoutSpec(picks, n);
      forall p ensures p in others <==> InBuckets(buckets[..n], p) {
        LastBucket(buckets, p);
        WithoutMember(picks, n, p);
      }
      CountsAddUp(buckets[..n], others);
      WithoutFront(buckets, picks);
      assert Total(buckets) == Total(buckets[..n]) + |buckets[n]|;
    }
  }

  lemma FirstPick(picks: seq<Pick>)
    ensures picks == [] || picks[0] in picks
  {
  }

  lemma LastBucket(buckets: seq<seq<Entry>>, p: Pick)
    requires buckets != []
    ensures InBuckets(buckets[..|buckets| - 1], p) <==> InBuckets(buckets, p) && p.typ != |buckets| - 1
  {
  }

  /** The picks of every type but one. */
  ghost function Without(picks: seq<Pick>, typ: nat): seq<Pick> {
    if picks == [] then []
    else Without(picks[..|picks| - 1], typ) + if picks[|picks| - 1].typ == typ then [] else [picks[|picks| - 1]]
  }

  lemma {:induction false} WithoutMember(picks: seq<Pick>, typ: nat, p: Pick)
    ensures p in Without(picks, typ) <==> p in picks && p.typ != typ
  {
    if picks != [] {
      assert picks == picks[..|picks| - 1] + [picks[|picks| - 1]];
      WithoutMember(picks[..|picks| - 1], typ, p);
    }
  }

  lemma {:induction false} WithoutSpec(picks: seq<Pick>, typ: nat)
    requires InOrder(picks)
    ensures InOrder(Without(picks, typ))
    ensures |picks| == |Without(picks, typ)| + Count(picks, typ)
  {
    if picks != [] {
      var init, last := picks[..|picks| - 1], picks[|picks| - 1];
      WithoutSpec(init, typ);
      forall p | p in Without(init, typ) ensures Before(p, last) {
        WithoutMember(init, typ, p);
        var i :| 0 <= i < |init| && init[i] == p;
        assert picks[i] == p;
      }
      OrderConcat(Without(init, typ), if last.typ == typ then [] else [last]);
    }
  }

  lemma WithoutFront(buckets: seq<seq<Entry>>, picks: seq<Pick>)
    requires Whole(buckets, picks)
    requires InOrder(picks) && buckets != []
    ensures Count(picks, |buckets| - 1) == |buckets[|buckets| - 1]|
  {
    var n := |buckets| - 1;
    WholeIsFront(buckets, picks);
    hide Front, InOrder, Count, InBuckets, Whole;
    var c := Count(picks, n);
    PicksArePrefix(buckets, picks, n, c);
    PicksArePrefix(buckets, picks, n, |buckets[n]|);
    WholeAt(buckets, picks, Pick(n, c));
    WholeAt(buckets, picks, Pick(n, |buckets[n]|));
  }

  ghost predicate Whole(buckets: seq<seq<Entry>>, picks: seq<Pick>) {
    forall p :: p in picks <==> InBuckets(buckets, p)
  }

  lemma WholeAt(buckets: seq<seq<Entry>>, picks: seq<Pick>, p: Pick)
    requires Whole(buckets, picks)
    ensures p in picks <==> p.typ < |buckets| && p.rank < |buckets[p.typ]|
  {
    RankBelow(buckets, p);
  }

  lemma WholeIsFront(buckets: seq<seq<Entry>>, picks: seq<Pick>)
    requires Whole(buckets, picks)
    requires InOrder(picks)
    ensures Front(buckets, picks)
  {
    hide InBuckets, Before;
    assert forall i :: 0 <= i < |picks| ==> picks[i] in picks;
  }

  ghost predicate DistinctPicks(buckets: seq<seq<Entry>>) {
    forall p, q :: InBuckets(buckets, p) && InBuckets(buckets, q) && p != q ==>
      buckets[p.typ][p.rank].id != buckets[q.typ][q.rank].id
  }

  lemma SampleSizeAndDistinct(buckets: seq<seq<Entry>>, limit: int)
    requires DistinctPicks(buckets)
    ensures AllInBuckets(buckets, First(All(buckets), limit))
    ensures var ids := Ids(buckets, First(All(buckets), limit));
            && |ids| == (if limit <= 0 then 0 else if limit < Total(buckets) then limit else Total(buckets))
            && forall i, j :: 0 <= i < j < |ids| ==> ids[i] != ids[j]
  {
    AllSpec(buckets);
    CountsAddUp(buckets, All(buckets));
    FirstIsFront(buckets, limit);
    var picks := First(All(buckets), limit);
    forall i, j | 0 <= i < j < |picks| ensures picks[i] != picks[j] {
      assert Before(picks[i], picks[j]);
    }
  }

  // ---------- The same, of the products themselves ----------

  /** Ids are the database's primary key. */
  predicate DistinctIds(products: seq<Product>) {
    forall i, j :: 0 <= i < j < |products| ==> products[i].id != products[j].id
  }

  predicate Distinct<T(==)>(s: seq<T>) {
    forall i, j :: 0 <= i < j < |s| ==> s[i] != s[j]
  }

  lemma {:induction false} TypesDistinct(products: seq<Product>)
    ensures Distinct(TypesOf(products))
  {
    if products != [] { TypesDistinct(products[..|products| - 1]); }
  }

  lemma ConsDistinct(t: string, ts: seq<string>)
    requires Distinct(ts) && t !in ts
    ensures Distinct([t] + ts)
  {
  }

  lemma {:induction false} InsertDistinct(t: string, ts: seq<string>)
    requires Distinct(ts) && t !in ts
    ensures Distinct(InsertType(t, ts))
  {
    if ts != [] && KeyLess(ts[0], t) {
      InsertDistinct(t, ts[1..]);
      InsertTypeKeeps(t, ts[1..]);
      ConsDistinct(ts[0], InsertType(t, ts[1..]));
    } else {
      ConsDistinct(t, ts);
    }
  }

  lemma {:induction false} SortedDistinct(ts: seq<string>)
    requires Distinct(ts)
    ensures Distinct(SortTypes(ts))
  {
    if ts != [] {
      SortedDistinct(ts[1..]);
      SortTypesKeeps(ts[1..]);
      InsertDistinct(ts[0], SortTypes(ts[1..]));
    }
  }

  /** How many products have one of the types. */
  function Covered(products: seq<Product>, byId: map<string, nat>, types: seq<string>): nat {
    if types == [] then 0
    else Covered(products, byId, types[..|types| - 1]) + |EntriesOf(products, byId, types[|types| - 1])|
  }

  lemma {:induction false} CoveredStep(products: seq<Product>, byId: map<string, nat>, types: seq<string>)
    requires products != [] && Distinct(types)
    ensures Covered(products, byId, types) == Covered(products[..|products| - 1], byId, types)
                                             + if products[|products| - 1].typ in types then 1 else 0
  {
    if types != [] {
      assert types == types[..|types| - 1] + [types[|types| - 1]];
      CoveredStep(products, byId, types[..|types| - 1]);
    }
  }

  lemma {:induction false} NoneCovered(byId: map<string, nat>, types: seq<string>)
    ensures Covered([], byId, types) == 0
  {
    if types != [] { NoneCovered(byId, types[..|types| - 1]); }
  }

  lemma {:induction false} EveryProductCovered(products: seq<Product>, byId: map<string, nat>, types: seq<string>)
    requires Distinct(types) && forall i :: 0 <= i < |products| ==> products[i].typ in types
    ensures Covered(products, byId, types) == |products|
  {
    if products == [] {
      NoneCovered(byId, types);
    } else {
      CoveredStep(products, byId, types);
      EveryProductCovered(products[..|products| - 1], byId, types);
    }
  }

  lemma {:induction false} TotalIsCovered(products: seq<Product>, byId: map<string, nat>, types: seq<string>,
                                          buckets: seq<seq<Entry>>)
    requires |buckets| == |types|
    requires forall i :: 0 <= i < |types| ==> |buckets[i]| == |EntriesOf(products, byId, types[i])|
    ensures Total(buckets) == Covered(products, byId, types)
  {
    if types != [] {
      var n := |types| - 1;
      assert forall i :: 0 <= i < n ==> types[..n][i] == types[i] && buckets[..n][i] == buckets[i];
      TotalIsCovered(products, byId, types[..n], buckets[..n]);
    }
  }

  /** An entry of a type's bucket is one of the products, of that type. */
  predicate Stems(products: seq<Product>, typ: string, e: Entry) {
    exists k :: 0 <= k < |products| && products[k].typ == typ && products[k].id == e.id
  }

  lemma {:induction false} EntriesStem(products: seq<Product>, byId: map<string, nat>, typ: string, e: Entry)
    requires e in EntriesOf(products, byId, typ)
    ensures Stems(products, typ, e)
  {
    var init, p := products[..|products| - 1], products[|products| - 1];
    if e in EntriesOf(init, byId, typ) {
      EntriesStem(init, byId, typ, e);
      var k :| 0 <= k < |init| && init[k].typ == typ && init[k].id == e.id;
      assert products[k] == init[k];
    } else {
      assert p.typ == typ && p.id == e.id;
    }
  }

  predicate DistinctEntries(es: seq<Entry>) {
    forall i, j :: 0 <= i < j < |es| ==> es[i].id != es[j].id
  }

  lemma {:induction false} EntriesDistinct(products: seq<Product>, byId: map<string, nat>, typ: string)
    requires DistinctIds(products)
    ensures DistinctEntries(EntriesOf(products, byId, typ))
  {
    if products != [] {
      var init, p := products[..|products| - 1], products[|products| - 1];
      EntriesDistinct(init, byId, typ);
      var es := EntriesOf(init, byId, typ);
      forall e | e in es ensures e.id != p.id {
        EntriesStem(init, byId, typ, e);
        var k :| 0 <= k < |init| && init[k].typ == typ && init[k].id == e.id;
        assert products[k] == init[k];
      }
    }
  }

  lemma {:induction false} PermutedDistinct(a: seq<Entry>, b: seq<Entry>)
    requires multiset(a) == multiset(b) && DistinctEntries(a)
    ensures DistinctEntries(b)
    decreases |b|
  {
    if b != [] {
      var e := b[0];
      assert b == [e] + b[1..];
      assert e in multiset(b);
      var k :| 0 <= k < |a| && a[k] == e;
      var rest := a[..k] + a[k + 1..];
      WithoutOne(a, k);
      Cancel(e, multiset(rest), multiset(b[1..]));
      PermutedDistinct(rest, b[1..]);
      forall j | 0 < j < |b| ensures b[j].id != e.id {
        assert b[1..][j - 1] in multiset(b[1..]);
        assert b[j] in rest;
      }
    }
  }

  lemma WithoutOne(a: seq<Entry>, k: nat)
    requires k < |a| && DistinctEntries(a)
    ensures var rest := a[..k] + a[k + 1..];
            && multiset(a) == multiset{a[k]} + multiset(rest)
            && DistinctEntries(rest)
            && forall e :: e in rest ==> e.id != a[k].id
  {
    TakenOut(a, k);
    var rest := a[..k] + a[k + 1..];
    assert forall i :: 0 <= i < |rest| ==> rest[i] == a[if i < k then i else i + 1];
  }

  lemma BucketEntry(products: seq<Product>, byId: map<string, nat>, typ: string, e: Entry)
    requires e in SortEntries(EntriesOf(products, byId, typ))
    ensures Stems(products, typ, e)
  {
    assert e in multiset(SortEntries(EntriesOf(products, byId, typ)));
    EntriesStem(products, byId, typ, e);
  }

  lemma StemsOnce(products: seq<Product>, a: string, b: string, d: Entry, e: Entry)
    requires DistinctIds(products) && Stems(products, a, d) && Stems(products, b, e) && d.id == e.id
    ensures a == b
  {
    var i :| 0 <= i < |products| && products[i].typ == a && products[i].id == d.id;
    var j :| 0 <= j < |products| && products[j].typ == b && products[j].id == e.id;
    assert i == j;
  }

  lemma BucketsDistinct(products: seq<Product>, byId: map<string, nat>)
    requires DistinctIds(products)
    ensures DistinctPicks(Buckets(products, byId))
  {
    var buckets, types := Buckets(products, byId), SortTypes(TypesOf(products));
    TypesDistinct(products);
    SortedDistinct(TypesOf(products));
    forall p, q | InBuckets(buckets, p) && InBuckets(buckets, q) && p != q
      ensures buckets[p.typ][p.rank].id != buckets[q.typ][q.rank].id
    {
      var d, e := buckets[p.typ][p.rank], buckets[q.typ][q.rank];
      hide SortEntries, EntriesOf, SortTypes, TypesOf, DistinctIds, Stems;
      BucketEntry(products, byId, types[p.typ], d);
      BucketEntry(products, byId, types[q.typ], e);
      if d.id == e.id {
        StemsOnce(products, types[p.typ], types[q.typ], d, e);
        assert p.typ == q.typ;
        EntriesDistinct(products, byId, types[p.typ]);
        PermutedDistinct(EntriesOf(products, byId, types[p.typ]), buckets[p.typ]);
      }
    }
  }

  lemma BucketsTotal(products: seq<Product>, byId: map<string, nat>)
    ensures Total(Buckets(products, byId)) == |products|
  {
    var buckets, types := Buckets(products, byId), SortTypes(TypesOf(products));
    TypesDistinct(products);
    SortedDistinct(TypesOf(products));
    SortTypesKeeps(TypesOf(products));
    EveryProductCovered(products, byId, types);
    forall i | 0 <= i < |types| ensures |buckets[i]| == |EntriesOf(products, byId, types[i])| {
      assert |multiset(buckets[i])| == |multiset(EntriesOf(products, byId, types[i]))|;
    }
    TotalIsCovered(products, byId, types, buckets);
  }

  /** The sample holds min(limit, how many products there are) ids, all different, each a product's. */
  lemma SampleOfProducts(products: seq<Product>, byId: map<string, nat>, limit: int)
    requires DistinctIds(products)
    ensures var buckets := Buckets(products, byId);
            && AllInBuckets(buckets, First(All(buckets), limit))
            && var ids := Ids(buckets, First(All(buckets), limit));
               && |ids| == (if limit <= 0 then 0 else if limit < |products| then limit else |products|)
               && Distinct(ids)
               && forall i :: 0 <= i < |ids| ==> exists k :: 0 <= k < |products| && products[k].id == ids[i]
  {
    var buckets, types := Buckets(products, byId), SortTypes(TypesOf(products));
    BucketsDistinct(products, byId);
    BucketsTotal(products, byId);
    SampleSizeAndDistinct(buckets, limit);
    hide All, First, SortEntries, EntriesOf, SortTypes, TypesOf, DistinctIds, DistinctPicks, Total;
    var picks := First(All(buckets), limit);
    var ids := Ids(buckets, picks);
    forall i | 0 <= i < |ids| ensures exists k :: 0 <= k < |products| && products[k].id == ids[i] {
      assert InBuckets(buckets, picks[i]);
      BucketEntry(products, byId, types[picks[i].typ], buckets[picks[i].typ][picks[i].rank]);
    }
  }

  // ---------- A re-run on unchanged data, found in any order, selects the same ----------

  lemma RicherOnce(a: Entry, b: Entry)
    requires Richer(a, b) && Richer(b, a)
    ensures a == b
  {
    KeyLessTotal(a.id, b.id);
  }

  /** Entries have one order to stand in. */
  lemma {:induction false} OrderedOnce(a: seq<Entry>, b: seq<Entry>)
    requires Ordered(a) && Ordered(b) && multiset(a) == multiset(b)
    ensures a == b
  {
    SameLength(a, b);
    if a != [] {
      FirstRicher(a, b);
      FirstRicher(b, a);
      RicherOnce(a[0], b[0]);
      assert a == [a[0]] + a[1..] && b == [a[0]] + b[1..];
      Cancel(a[0], multiset(a[1..]), multiset(b[1..]));
      OrderedOnce(a[1..], b[1..]);
    }
  }

  lemma FirstRicher(a: seq<Entry>, b: seq<Entry>)
    requires Ordered(a) && multiset(a) == multiset(b) && b != [] && a != []
    ensures Richer(a[0], b[0])
  {
    assert b[0] in multiset(a);
    var k :| 0 <= k < |a| && a[k] == b[0];
    RicherTotal(a[0], a[0], a[0]);
  }

  predicate Ascending(ts: seq<string>) {
    forall i, j :: 0 <= i < j < |ts| ==> KeyLess(ts[i], ts[j])
  }

  lemma {:induction false} InsertAscending(t: string, ts: seq<string>)
    requires Ascending(ts) && t !in ts
    ensures Ascending(InsertType(t, ts))
  {
    if ts != [] {
      KeyLessTotal(ts[0], t);
      if KeyLess(ts[0], t) {
        InsertAscending(t, ts[1..]);
        InsertTypeKeeps(t, ts[1..]);
        var r := InsertType(t, ts[1..]);
        forall i | 0 <= i < |r| ensures KeyLess(ts[0], r[i]) {
          assert r[i] in r;
        }
      } else {
        forall i | 0 <= i < |ts| ensures KeyLess(t, ts[i]) {
          if i > 0 { KeyLessTransitive(t, ts[0], ts[i]); }
        }
      }
    }
  }

  /** The types are visited in ascending order. */
  lemma {:induction false} SortTypesAscends(ts: seq<string>)
    requires Distinct(ts)
    ensures Ascending(SortTypes(ts))
  {
    if ts != [] {
      SortTypesAscends(ts[1..]);
      SortTypesKeeps(ts[1..]);
      InsertAscending(ts[0], SortTypes(ts[1..]));
    }
  }

  lemma {:induction false} AscendingOnce(a: seq<string>, b: seq<string>)
    requires Ascending(a) && Ascending(b) && forall t :: t in a <==> t in b
    ensures a == b
  {
    BothEmpty(a, b);
    if a != [] {
      assert a[0] in b;
      assert b[0] in a;
      LeastFirst(a, b[0]);
      LeastFirst(b, a[0]);
      KeyLessTotal(a[0], b[0]);
      forall t ensures t in a[1..] <==> t in b[1..] {
        RestMember(a, t);
        RestMember(b, t);
      }
      AscendingOnce(a[1..], b[1..]);
    }
  }

  lemma BothEmpty(a: seq<string>, b: seq<string>)
    requires forall t :: t in a <==> t in b
    ensures a == [] <==> b == []
  {
    if a != [] { assert a[0] in b; }
    if b != [] { assert b[0] in a; }
  }

  lemma LeastFirst(a: seq<string>, t: string)
    requires Ascending(a) && t in a
    ensures a[0] == t || KeyLess(a[0], t)
  {
  }

  lemma RestMember(a: seq<string>, t: string)
    requires Ascending(a) && a != []
    ensures t in a[1..] <==> t in a && t != a[0]
  {
    KeyLessTotal(a[0], a[0]);
    assert a == [a[0]] + a[1..];
  }

  lemma {:induction false} EntriesAppend(a: seq<Product>, b: seq<Product>, byId: map<string, nat>, typ: string)
    ensures EntriesOf(a + b, byId, typ) == EntriesOf(a, byId, typ) + EntriesOf(b, byId, typ)
  {
    if b == [] {
      assert a + b == a;
    } else {
      var n := |b| - 1;
      EntriesAppend(a, b[..n], byId, typ);
      assert (a + b)[..|a + b| - 1] == a + b[..n] && (a + b)[|a + b| - 1] == b[n];
    }
  }

  lemma EntriesWithout(products: seq<Product>, byId: map<string, nat>, typ: string, k: nat)
    requires k < |products|
    ensures multiset(EntriesOf(products, byId, typ)) ==
            multiset(EntriesOf(products[..k] + products[k + 1..], byId, typ))
            + multiset(EntriesOf([products[k]], byId, typ))
  {
    hide EntriesOf;
    var before, p, after := products[..k], [products[k]], products[k + 1..];
    assert products == before + (p + after);
    EntriesAppend(before, p + after, byId, typ);
    EntriesAppend(p, after, byId, typ);
    EntriesAppend(before, after, byId, typ);
  }

  lemma {:induction false} EntriesPermuted(a: seq<Product>, b: seq<Product>, byId: map<string, nat>, typ: string)
    requires multiset(a) == multiset(b)
    ensures multiset(EntriesOf(a, byId, typ)) == multiset(EntriesOf(b, byId, typ))
    decreases |a|
  {
    hide EntriesOf;
    SameLength(a, b);
    if a == [] {
      assert b == [];
    } else {
      var k := Found(a, b);
      TakenOut(a, k);
      TakenOut(b, 0);
      var c, d := a[..k] + a[k + 1..], b[..0] + b[1..];
      Cancel(b[0], multiset(c), multiset(d));
      EntriesWithout(a, byId, typ, k);
      EntriesWithout(b, byId, typ, 0);
      EntriesPermuted(c, d, byId, typ);
    }
  }

  lemma TypesPermuted(a: seq<Product>, b: seq<Product>)
    requires multiset(a) == multiset(b)
    ensures forall t :: t in TypesOf(a) <==> t in TypesOf(b)
  {
    forall i | 0 <= i < |a| ensures a[i] in b {
      assert a[i] in multiset(b);
    }
    forall i | 0 <= i < |b| ensures b[i] in a {
      assert b[i] in multiset(a);
    }
  }

  /** In whatever order the same products are found, the buckets are the same, and so is the sample. */
  lemma SampleIsRepeatable(a: seq<Product>, b: seq<Product>, byId: map<string, nat>, limit: int)
    requires multiset(a) == multiset(b)
    ensures Buckets(a, byId) == Buckets(b, byId)
    ensures First(All(Buckets(a, byId)), limit) == First(All(Buckets(b, byId)), limit)
  {
    hide EntriesOf, SortEntries, SortTypes, TypesOf, All, First;
    TypesDistinct(a);
    TypesDistinct(b);
    SortTypesAscends(TypesOf(a));
    SortTypesAscends(TypesOf(b));
    SortTypesKeeps(TypesOf(a));
    SortTypesKeeps(TypesOf(b));
    TypesPermuted(a, b);
    AscendingOnce(SortTypes(TypesOf(a)), SortTypes(TypesOf(b)));
    forall typ ensures SortEntries(EntriesOf(a, byId, typ)) == SortEntries(EntriesOf(b, byId, typ)) {
      EntriesPermuted(a, b, byId, typ);
      SortOrders(EntriesOf(a, byId, typ));
      SortOrders(EntriesOf(b, byId, typ));
      OrderedOnce(SortEntries(EntriesOf(a, byId, typ)), SortEntries(EntriesOf(b, byId, typ)));
    }
    assert Buckets(a, byId) == Buckets(b, byId);
  }
}
