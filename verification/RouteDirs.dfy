/** Which directories of a Next.js app a URL path can resolve to: `resolveDirs` walks through route
    groups, folders such as `(auth)` that add nothing to the URL. */
module RouteDirs {
  import opened Options

  /** A directory's entries, or a file. */
  datatype Node = File | Dir(entries: seq<Entry>)

  datatype Entry = Entry(name: string, node: Node)

  /** No directory holds two entries of one name, all the way down. */
  predicate FileSystem(n: Node) {
    n.Dir? ==>
      && (forall i, j :: 0 <= i < j < |n.entries| ==> n.entries[i].name != n.entries[j].name)
      && forall i :: 0 <= i < |n.entries| ==> FileSystem(n.entries[i].node)
  }

  function Child(entries: seq<Entry>, name: string): (r: Option<Node>)
    ensures r.Some? ==> exists i :: 0 <= i < |entries| && entries[i] == Entry(name, r.value)
    ensures r.None? ==> forall i :: 0 <= i < |entries| ==> entries[i].name != name
  {
    if entries == [] then None
    else if entries[0].name == name then Some(entries[0].node)
    else
      var r := Child(entries[1..], name);
      assert forall i :: 0 <= i < |entries[1..]| ==> entries[1..][i] == entries[i + 1];
      r
  }

  predicate IsNewline(c: char) {
    c == '\n' || c == '\r' || c as int == 0x2028 || c as int == 0x2029
  }

  /** `/^\(.+\)$/`: a route group. */
  predicate IsGroup(name: string) {
    && |name| >= 3 && name[0] == '(' && name[|name| - 1] == ')'
    && forall i :: 0 < i < |name| - 1 ==> !IsNewline(name[i])
  }

  /** A group's name is something on one line in round brackets. */
  lemma GroupExactly(name: string)
    ensures IsGroup(name) <==> exists inner: string :: Bracketed(name, inner)
  {
    if IsGroup(name) {
      var inner := name[1..|name| - 1];
      assert name == "(" + inner + ")";
      assert Bracketed(name, inner);
    }
    if inner: string :| Bracketed(name, inner) {
      assert name[0] == '(' && name[|name| - 1] == ')';
      forall i | 0 < i < |name| - 1 ensures !IsNewline(name[i]) {
        assert name[i] == inner[i - 1] && inner[i - 1] in inner;
      }
    }
  }

  ghost predicate Bracketed(name: string, inner: string) {
    && name == "(" + inner + ")" && inner != ""
    && forall c :: c in inner ==> c as int !in {10, 13, 0x2028, 0x2029}
  }

  /** The path with its group components left out: what the URL shows. */
  function Erased(path: seq<string>): seq<string> {
    if path == [] then []
    else (if IsGroup(path[0]) then [] else [path[0]]) + Erased(path[1..])
  }

  /** A path of names from `n` that ends in a directory. */
  predicate DirAt(n: Node, path: seq<string>)
    decreases |path|
  {
    n.Dir? && (path != [] ==> var c := Child(n.entries, path[0]); c.Some? && DirAt(c.value, path[1..]))
  }

  function Prefixed(name: string, paths: seq<seq<string>>): (r: seq<seq<string>>)
    ensures |r| == |paths| && forall i :: 0 <= i < |r| ==> r[i] == [name] + paths[i]
  {
    if paths == [] then [] else [[name] + paths[0]] + Prefixed(name, paths[1..])
  }

  /** `resolveDirs`: every directory the segments can resolve to, as paths from `n`. */
  function ResolveDirs(n: Node, segments: seq<string>): seq<seq<string>>
    decreases n, |segments|, 1
  {
    if n.File? then []
    else
      var groups := InGroups(n, n.entries, segments);
      if segments == [] then [[]] + groups
      else
        var c := Child(n.entries, segments[0]);
        (if c.None? then [] else Prefixed(segments[0], ResolveDirs(c.value, segments[1..]))) + groups
  }

  /** The directories found through the groups among the entries. */
  function InGroups(n: Node, entries: seq<Entry>, segments: seq<string>): seq<seq<string>>
    requires n.Dir? && |entries| <= |n.entries| && entries == n.entries[|n.entries| - |entries|..]
    decreases n, |segments|, 0, |entries|
  {
    if entries == [] then []
    else
      (if IsGroup(entries[0].name) then Prefixed(entries[0].name, ResolveDirs(entries[0].node, segments)) else [])
      + InGroups(n, entries[1..], segments)
  }

  // ---------- It finds exactly the directories the URL names ----------

  predicate NoGroups(segments: seq<string>) {
    forall i :: 0 <= i < |segments| ==> !IsGroup(segments[i])
  }

  /** The directory at `path` is one the URL `segments` names. */
  predicate Names(n: Node, segments: seq<string>, path: seq<string>) {
    DirAt(n, path) && Erased(path) == segments
  }

  lemma {:induction false} PrefixedIn(name: string, paths: seq<seq<string>>, p: seq<string>)
    ensures p in Prefixed(name, paths) <==> p != [] && p[0] == name && p[1..] in paths
  {
    if paths != [] {
      PrefixedIn(name, paths[1..], p);
      assert p == [name] + paths[0] <==> p != [] && p[0] == name && p[1..] == paths[0];
      assert paths == [paths[0]] + paths[1..];
    }
  }

  /** Through the entry named first on the path, a group, to a directory the segments name. */
  predicate ThroughGroup(entries: seq<Entry>, segments: seq<string>, p: seq<string>) {
    && p != [] && IsGroup(p[0]) && Child(entries, p[0]).Some?
    && Names(Child(entries, p[0]).value, segments, p[1..])
  }

  lemma ChildFirst(entries: seq<Entry>, name: string)
    requires entries != []
    requires forall i, j :: 0 <= i < j < |entries| ==> entries[i].name != entries[j].name
    ensures entries[0].name == name ==>
              Child(entries, name) == Some(entries[0].node) && Child(entries[1..], name) == None
    ensures entries[0].name != name ==> Child(entries, name) == Child(entries[1..], name)
  {
  }

  lemma {:induction false} InGroupsExactly(n: Node, entries: seq<Entry>, segments: seq<string>, p: seq<string>)
    requires n.Dir? && FileSystem(n) && NoGroups(segments)
    requires |entries| <= |n.entries| && entries == n.entries[|n.entries| - |entries|..]
    ensures p in InGroups(n, entries, segments) <==> ThroughGroup(entries, segments, p)
    decreases n, |segments|, 0, |entries|
  {
    if entries != [] {
      var e := entries[0];
      assert e == n.entries[|n.entries| - |entries|];
      InGroupsExactly(n, entries[1..], segments, p);
      if p != [] {
        ChildFirst(entries, p[0]);
        ResolvesExactly(e.node, segments, p[1..]);
      }
      PrefixedIn(e.name, ResolveDirs(e.node, segments), p);
    }
  }

  /** Sound and complete: the directories found are those whose path, groups left out, is the URL's. */
  lemma {:induction false} ResolvesExactly(n: Node, segments: seq<string>, p: seq<string>)
    requires FileSystem(n) && NoGroups(segments)
    ensures p in ResolveDirs(n, segments) <==> Names(n, segments, p)
    decreases n, |segments|, 1
  {
    if n.Dir? {
      InGroupsExactly(n, n.entries, segments, p);
      if segments != [] {
        var c := Child(n.entries, segments[0]);
        if c.Some? && p != [] { ResolvesExactly(c.value, segments[1..], p[1..]); }
        if c.Some? { PrefixedIn(segments[0], ResolveDirs(c.value, segments[1..]), p); }
      }
      if p != [] { ErasedStep(p); }
    }
  }

  lemma ErasedStep(p: seq<string>)
    requires p != []
    ensures IsGroup(p[0]) ==> Erased(p) == Erased(p[1..])
    ensures !IsGroup(p[0]) ==> Erased(p) != [] && Erased(p)[0] == p[0] && Erased(p)[1..] == Erased(p[1..])
  {
  }

  predicate Distinct(paths: seq<seq<string>>) {
    forall i, j :: 0 <= i < j < |paths| ==> paths[i] != paths[j]
  }

  lemma ConcatDistinct(a: seq<seq<string>>, b: seq<seq<string>>)
    requires Distinct(a) && Distinct(b) && forall p :: p in a ==> p !in b
    ensures Distinct(a + b)
  {
    assert forall i :: 0 <= i < |a| ==> a[i] in a;
    assert forall i :: 0 <= i < |b| ==> b[i] in b;
  }

  lemma PrefixedDistinct(name: string, paths: seq<seq<string>>)
    requires Distinct(paths)
    ensures Distinct(Prefixed(name, paths))
  {
    forall i, j | 0 <= i < j < |paths| ensures Prefixed(name, paths)[i] != Prefixed(name, paths)[j] {
      assert ([name] + paths[i])[1..] == paths[i] && ([name] + paths[j])[1..] == paths[j];
    }
  }

  lemma {:induction false} InGroupsOnce(n: Node, entries: seq<Entry>, segments: seq<string>)
    requires n.Dir? && FileSystem(n) && NoGroups(segments)
    requires |entries| <= |n.entries| && entries == n.entries[|n.entries| - |entries|..]
    ensures Distinct(InGroups(n, entries, segments))
    decreases n, |segments|, 0, |entries|
  {
    if entries != [] {
      var e := entries[0];
      assert e == n.entries[|n.entries| - |entries|];
      InGroupsOnce(n, entries[1..], segments);
      ResolvesOnce(e.node, segments);
      PrefixedDistinct(e.name, ResolveDirs(e.node, segments));
      ThroughEntry(n, entries, segments);
    }
  }

  /** What is found through the first entry is not found through the others. */
  lemma ThroughEntry(n: Node, entries: seq<Entry>, segments: seq<string>)
    requires n.Dir? && FileSystem(n) && NoGroups(segments)
    requires 0 < |entries| <= |n.entries| && entries == n.entries[|n.entries| - |entries|..]
    requires Distinct(Prefixed(entries[0].name, ResolveDirs(entries[0].node, segments)))
    requires Distinct(InGroups(n, entries[1..], segments))
    ensures Distinct(InGroups(n, entries, segments))
  {
    hide Distinct, ResolveDirs, Prefixed, IsGroup, Names, NoGroups, InGroups, ThroughGroup;
    var e, rest := entries[0], InGroups(n, entries[1..], segments);
    var here := Prefixed(e.name, ResolveDirs(e.node, segments));
    UniqueHere(n, entries);
    forall p | p in here ensures p !in rest {
      PrefixedIn(e.name, ResolveDirs(e.node, segments), p);
      InGroupsExactly(n, entries[1..], segments, p);
      NotThrough(entries, segments, p);
    }
    ConcatDistinct(here, rest);
    InGroupsStep(n, entries, segments);
  }

  lemma UniqueHere(n: Node, entries: seq<Entry>)
    requires n.Dir? && FileSystem(n)
    requires |entries| <= |n.entries| && entries == n.entries[|n.entries| - |entries|..]
    ensures forall i, j :: 0 <= i < j < |entries| ==> entries[i].name != entries[j].name
  {
  }

  lemma NotThrough(entries: seq<Entry>, segments: seq<string>, p: seq<string>)
    requires entries != [] && p != [] && p[0] == entries[0].name
    requires forall i, j :: 0 <= i < j < |entries| ==> entries[i].name != entries[j].name
    ensures !ThroughGroup(entries[1..], segments, p)
  {
    ChildFirst(entries, p[0]);
  }

  lemma InGroupsStep(n: Node, entries: seq<Entry>, segments: seq<string>)
    requires n.Dir? && 0 < |entries| <= |n.entries| && entries == n.entries[|n.entries| - |entries|..]
    ensures var here := Prefixed(entries[0].name, ResolveDirs(entries[0].node, segments));
            var rest := InGroups(n, entries[1..], segments);
            InGroups(n, entries, segments) == if IsGroup(entries[0].name) then here + rest else rest
  {
    hide ResolveDirs, Prefixed, IsGroup;
  }

  /** And each of them is found once. */
  lemma {:induction false} ResolvesOnce(n: Node, segments: seq<string>)
    requires FileSystem(n) && NoGroups(segments)
    ensures Distinct(ResolveDirs(n, segments))
    decreases n, |segments|, 1
  {
    if n.Dir? {
      InGroupsOnce(n, n.entries, segments);
      var groups, here := InGroups(n, n.entries, segments), Direct(n, segments);
      DirectOnce(n, segments);
      forall p | p in here ensures p !in groups {
        DirectPath(n, segments, p);
        InGroupsExactly(n, n.entries, segments, p);
      }
      ConcatDistinct(here, groups);
    }
  }

  /** What `ResolveDirs` finds without a group step. */
  function Direct(n: Node, segments: seq<string>): seq<seq<string>>
    requires n.Dir?
  {
    if segments == [] then [[]]
    else
      var c := Child(n.entries, segments[0]);
      if c.None? then [] else Prefixed(segments[0], ResolveDirs(c.value, segments[1..]))
  }

  lemma DirectPath(n: Node, segments: seq<string>, p: seq<string>)
    requires n.Dir? && NoGroups(segments) && p in Direct(n, segments)
    ensures p == [] || !IsGroup(p[0])
  {
    if segments != [] {
      PrefixedIn(segments[0], ResolveDirs(Child(n.entries, segments[0]).value, segments[1..]), p);
    }
  }

  lemma DirectOnce(n: Node, segments: seq<string>)
    requires n.Dir? && FileSystem(n) && NoGroups(segments)
    ensures Distinct(Direct(n, segments))
    decreases n, |segments|, 0
  {
    if segments != [] && Child(n.entries, segments[0]).Some? {
      var c := Child(n.entries, segments[0]).value;
      ResolvesOnce(c, segments[1..]);
      PrefixedDistinct(segments[0], ResolveDirs(c, segments[1..]));
    }
  }

  // ---------- Segments that are group names themselves ----------

  /** A folder chain with nothing else in it. */
  function Chain(path: seq<string>): (n: Node)
    ensures FileSystem(n) && n.Dir?
  {
    if path == [] then Dir([]) else Dir([Entry(path[0], Chain(path[1..]))])
  }

  lemma {:induction false} ChainResolves(path: seq<string>)
    ensures path in ResolveDirs(Chain(path), path)
  {
    if path == [] {
      assert ResolveDirs(Chain(path), path)[0] == [];
    } else {
      ChainResolves(path[1..]);
      PrefixedIn(path[0], ResolveDirs(Chain(path[1..]), path[1..]), path);
    }
  }

  lemma {:induction false} ErasedShorter(path: seq<string>)
    ensures |Erased(path)| <= |path|
    ensures Erased(path) == path <==> NoGroups(path)
  {
    if path != [] {
      ErasedShorter(path[1..]);
      ErasedStep(path);
      assert path == [path[0]] + path[1..];
      assert NoGroups(path) <==> !IsGroup(path[0]) && NoGroups(path[1..]);
    }
  }

  ghost predicate AlwaysExact(segments: seq<string>) {
    forall n: Node, p :: FileSystem(n) ==> (p in ResolveDirs(n, segments) <==> Names(n, segments, p))
  }

  /** The search is right on every tree exactly for URLs in which no segment is itself a group's name. */
  lemma ExactForPlainUrls(segments: seq<string>)
    ensures AlwaysExact(segments) <==> NoGroups(segments)
  {
    if NoGroups(segments) {
      forall n: Node, p | FileSystem(n) ensures p in ResolveDirs(n, segments) <==> Names(n, segments, p) {
        ResolvesExactly(n, segments, p);
      }
    } else {
      ChainResolves(segments);
      ErasedShorter(segments);
      assert !Names(Chain(segments), segments, segments);
    }
  }

  // ---------- Routes ----------

  const PAGE_FILES := ["page.tsx", "page.ts", "page.jsx", "page.js", "route.ts", "route.js"]

  function NodeAt(n: Node, path: seq<string>): Option<Node>
    decreases |path|
  {
    if path == [] then Some(n)
    else if n.File? then None
    else
      var c := Child(n.entries, path[0]);
      if c.None? then None else NodeAt(c.value, path[1..])
  }

  /** The directory holds a page file: without one it is a grouping, not a route. */
  predicate HoldsPage(n: Node, path: seq<string>) {
    exists i :: 0 <= i < |PAGE_FILES| && NodeAt(n, path + [PAGE_FILES[i]]).Some?
  }

  predicate AnyHoldsPage(n: Node, paths: seq<seq<string>>) {
    exists i :: 0 <= i < |paths| && HoldsPage(n, paths[i])
  }

  /** `servesRoute`: beneath the locale folder, or beneath the app itself. */
  predicate ServesRoute(app: Node, segments: seq<string>) {
    || (app.Dir? && Child(app.entries, "[locale]").Some?
        && AnyHoldsPage(Child(app.entries, "[locale]").value,
                        ResolveDirs(Child(app.entries, "[locale]").value, segments)))
    || AnyHoldsPage(app, ResolveDirs(app, segments))
  }

  /** Some directory that the URL names holds a page. */
  ghost predicate HasRoute(n: Node, segments: seq<string>) {
    exists path :: Names(n, segments, path) && HoldsPage(n, path)
  }

  lemma RouteFound(n: Node, segments: seq<string>)
    requires FileSystem(n) && NoGroups(segments)
    ensures AnyHoldsPage(n, ResolveDirs(n, segments)) <==> HasRoute(n, segments)
  {
    hide HoldsPage, Names, ResolveDirs;
    var paths := ResolveDirs(n, segments);
    if AnyHoldsPage(n, paths) {
      var i :| 0 <= i < |paths| && HoldsPage(n, paths[i]);
      ResolvesExactly(n, segments, paths[i]);
    }
    if HasRoute(n, segments) {
      var path :| Names(n, segments, path) && HoldsPage(n, path);
      ResolvesExactly(n, segments, path);
    }
  }

  /** There is a directory or file at the end of the path. */
  ghost predicate Found(n: Node, path: seq<string>)
    decreases |path|
  {
    path == [] || (n.Dir? && exists i :: 0 <= i < |n.entries| && n.entries[i].name == path[0]
                                         && Found(n.entries[i].node, path[1..]))
  }

  lemma {:induction false} NodeAtIs(n: Node, path: seq<string>)
    requires FileSystem(n)
    ensures NodeAt(n, path).Some? <==> Found(n, path)
    decreases |path|
  {
    if path != [] && n.Dir? {
      var c := Child(n.entries, path[0]);
      if c.Some? {
        var i :| 0 <= i < |n.entries| && n.entries[i] == Entry(path[0], c.value);
        NodeAtIs(c.value, path[1..]);
        forall j | 0 <= j < |n.entries| && n.entries[j].name == path[0] ensures j == i {
        }
      }
    }
  }

  /** The directory at `path` holds one of the files Next.js serves a route from. */
  ghost predicate Serves(n: Node, path: seq<string>) {
    exists file :: file in {"page.tsx", "page.ts", "page.jsx", "page.js", "route.ts", "route.js"}
                   && Found(n, path + [file])
  }

  lemma HoldsPageIs(n: Node, path: seq<string>)
    requires FileSystem(n)
    ensures HoldsPage(n, path) <==> Serves(n, path)
  {
    hide NodeAt, Found;
    forall file ensures NodeAt(n, path + [file]).Some? <==> Found(n, path + [file]) { NodeAtIs(n, path + [file]); }
    if HoldsPage(n, path) {
      var i :| 0 <= i < |PAGE_FILES| && NodeAt(n, path + [PAGE_FILES[i]]).Some?;
      assert Found(n, path + [PAGE_FILES[i]]);
    }
    if file :| file in {"page.tsx", "page.ts", "page.jsx", "page.js", "route.ts", "route.js"}
               && Found(n, path + [file])
    {
      assert file == PAGE_FILES[0] || file == PAGE_FILES[1] || file == PAGE_FILES[2] || file == PAGE_FILES[3]
             || file == PAGE_FILES[4] || file == PAGE_FILES[5];
    }
  }

  /** Some directory that the URL names serves a route. */
  ghost predicate Reaches(n: Node, segments: seq<string>) {
    exists path :: Names(n, segments, path) && Serves(n, path)
  }

  lemma HasRouteIs(n: Node, segments: seq<string>)
    requires FileSystem(n)
    ensures HasRoute(n, segments) <==> Reaches(n, segments)
  {
    hide Names, HoldsPage, Serves;
    forall path ensures HoldsPage(n, path) <==> Serves(n, path) { HoldsPageIs(n, path); }
  }

  /** Beneath the locale's folder, or beneath the app itself. */
  lemma ServesExactly(app: Node, segments: seq<string>)
    requires FileSystem(app) && NoGroups(segments)
    ensures ServesRoute(app, segments) <==>
            || (app.Dir? && exists i :: 0 <= i < |app.entries| && app.entries[i].name == "[locale]"
                                        && Reaches(app.entries[i].node, segments))
            || Reaches(app, segments)
  {
    RoutesServed(app, segments);
    HasRouteIs(app, segments);
    hide HasRoute, Reaches, ServesRoute;
    if app.Dir? && Child(app.entries, "[locale]").Some? {
      var c := Child(app.entries, "[locale]").value;
      var i :| 0 <= i < |app.entries| && app.entries[i] == Entry("[locale]", c);
      HasRouteIs(c, segments);
      forall j | 0 <= j < |app.entries| && app.entries[j].name == "[locale]" ensures j == i {
      }
    }
  }

  lemma RoutesServed(app: Node, segments: seq<string>)
    requires FileSystem(app) && NoGroups(segments)
    ensures ServesRoute(app, segments) <==>
            || (app.Dir? && Child(app.entries, "[locale]").Some?
                && HasRoute(Child(app.entries, "[locale]").value, segments))
            || HasRoute(app, segments)
  {
    RouteFound(app, segments);
    if app.Dir? && Child(app.entries, "[locale]").Some? {
      RouteFound(Child(app.entries, "[locale]").value, segments);
    }
  }
}
