/** What a reader of the projected document may rely on. */
module OpenApiTheorems {
  import opened Json
  import opened OpenApi
  import opened Prelude

  // ---- Exactness: which entries survive, and with what content ----

  predicate IsMethod(m: string) {
    || m == "get" || m == "post" || m == "put" || m == "patch" || m == "delete" || m == "options" || m == "head"
    || m == "trace"
  }

  /** Iterating the value and looking each item up in a set does not raise. */
  predicate IsIterable(value: Json) {
    match value
    case JList(items) => forall i :: 0 <= i < |items| ==> !items[i].JList? && !items[i].JObj?
    case JStr(_) => true
    case JObj(_) => true
    case _ => false
  }

  /** The name is an item of the list, a key of the dict or a one-character part of the text. */
  predicate Yields(value: Json, name: string) {
    match value
    case JList(items) => JStr(name) in items
    case JStr(s) => |name| == 1 && name[0] in s
    case JObj(fields) => name in fields
    case _ => false
  }

  /** Operations that declare nothing are for everyone; the others for the audience they name, and
      for both if they name "shared". */
  predicate IsFor(audience: Audience, operation: Json)
    requires operation.JObj?
  {
    "x-surfaces" in operation.fields ==>
      var declared := operation.fields["x-surfaces"];
      IsIterable(declared) &&
        (Yields(declared, "shared") || Yields(declared, if audience.Client? then "client" else "admin"))
  }

  lemma MethodIff(m: string)
    ensures m in HTTP_METHODS <==> IsMethod(m)
  {
  }

  lemma IteratedYields(value: Json, name: string)
    ensures Iterated(value).Some? <==> IsIterable(value)
    ensures Iterated(value).Some? ==> (name in Iterated(value).value <==> Yields(value, name))
  {
    if value.JStr? && Yields(value, name) {
      var i :| 0 <= i < |value.s| && value.s[i] == name[0];
      assert name == [value.s[i]];
    }
    if value.JList? && Yields(value, name) {
      var i :| 0 <= i < |value.items| && value.items[i] == JStr(name);
    }
  }

  lemma VisibleIff(audience: Audience, operation: Json)
    requires operation.JObj?
    ensures Visible(audience, operation) <==> IsFor(audience, operation)
    ensures Readable(operation) <==> ("x-surfaces" in operation.fields ==> IsIterable(operation.fields["x-surfaces"]))
  {
    var own := if audience.Client? then "client" else "admin";
    forall name ensures name in Allowed(audience) <==> name == "shared" || name == own {
    }
    if "x-surfaces" in operation.fields {
      IteratedYields(operation.fields["x-surfaces"], "shared");
      IteratedYields(operation.fields["x-surfaces"], own);
    }
    var both := Allowed(audience) * Surfaces(operation);
    assert "shared" in both <==> "shared" in Surfaces(operation);
    assert own in both <==> own in Surfaces(operation);
    if both != {} {
      var name :| name in both;
    }
  }

  /** An operation whose declaration cannot be iterated. */
  predicate Raises(m: string, entry: Json) {
    IsMethod(m) && entry.JObj? && "x-surfaces" in entry.fields && !IsIterable(entry.fields["x-surfaces"])
  }

  /** A document can be projected iff no operation raises. */
  lemma ReadableIff(paths: map<string, PathItem>)
    ensures ReadablePaths(paths) <==> forall p, m :: p in paths && m in paths[p] ==> !Raises(m, paths[p][m])
  {
    forall p, m | p in paths && m in paths[p]
      ensures Raises(m, paths[p][m]) <==> IsOperation(m, paths[p][m]) && !Readable(paths[p][m])
    {
      MethodIff(m);
      if paths[p][m].JObj? { VisibleIff(Client, paths[p][m]); }
    }
    forall p | p in paths ensures ReadableItem(paths[p]) <==> forall m :: m in paths[p] ==> !Raises(m, paths[p][m]) {
    }
  }

  /** The entry is part of the path item and is not an operation of other surfaces only. */
  predicate Shown(audience: Audience, item: PathItem, m: string) {
    m in item && (IsMethod(m) && item[m].JObj? ==> IsFor(audience, item[m]))
  }

  /** `after` is `before` without "x-surfaces": nothing else added, removed or changed. */
  predicate LosesOnlySurfaces(before: Json, after: Json) {
    && before.JObj? && after.JObj?
    && after.fields.Keys == before.fields.Keys - {"x-surfaces"}
    && forall k :: k in after.fields ==> after.fields[k] == before.fields[k]
  }

  lemma VisibleItemShows(audience: Audience, item: PathItem, m: string)
    ensures m in VisibleItem(audience, item) <==> Shown(audience, item, m)
    ensures VisibleItem(audience, item).Keys * HTTP_METHODS != {} <==>
            exists k :: IsMethod(k) && Shown(audience, item, k)
  {
    var kept := VisibleItem(audience, item);
    forall k ensures k in kept <==> Shown(audience, item, k) {
      MethodIff(k);
      if k in item && item[k].JObj? { VisibleIff(audience, item[k]); }
    }
    if k :| IsMethod(k) && Shown(audience, item, k) {
      MethodIff(k);
      assert k in kept.Keys * HTTP_METHODS;
    }
    if kept.Keys * HTTP_METHODS != {} {
      var k :| k in kept.Keys * HTTP_METHODS;
      MethodIff(k);
      assert Shown(audience, item, k);
    }
  }

  /** An operation is in the projection iff it is for the audience. */
  lemma WhoSeesAnOperation(audience: Audience, doc: Document, p: string, m: string)
    requires p in doc.paths && m in doc.paths[p] && IsMethod(m) && doc.paths[p][m].JObj?
    ensures var out := Project(audience, doc).paths;
            p in out && m in out[p] <==> IsFor(audience, doc.paths[p][m])
  {
    VisibleItemShows(audience, doc.paths[p], m);
  }

  /** An entry survives iff it is not a hidden operation and its path keeps some method; a surviving
      operation loses "x-surfaces" and nothing else, every other entry is untouched. */
  lemma ProjectionIsExact(audience: Audience, doc: Document, p: string, m: string)
    requires p in doc.paths && m in doc.paths[p]
    ensures var (item, out) := (doc.paths[p], Project(audience, doc).paths);
            && (p in out && m in out[p] <==>
                Shown(audience, item, m) && exists k :: IsMethod(k) && Shown(audience, item, k))
            && (p in out && m in out[p] ==>
                if IsMethod(m) && item[m].JObj? then LosesOnlySurfaces(item[m], out[p][m]) else out[p][m] == item[m])
  {
    VisibleItemShows(audience, doc.paths[p], m);
    MethodIff(m);
  }

  // ---- What a reference names ----

  /** A component is named by its path behind the prefix, and by nothing else. */
  lemma NameIff(refs: set<string>, name: string)
    ensures name in Names(refs) <==> "#/components/schemas/" + name in refs
  {
    var ref := "#/components/schemas/" + name;
    assert SCHEMA_PREFIX <= ref && ref[|SCHEMA_PREFIX|..] == name;
    if name in Names(refs) {
      var r :| r in refs && ExtractSchemaName(r) == Some(name);
      assert r == SCHEMA_PREFIX + r[|SCHEMA_PREFIX|..];
    }
  }

  /** The closure follows a reference at any depth of a component's definition, unless it is the bare
      prefix; the paths need what they refer to at any depth. */
  lemma DependencyIff(schemas: Components, paths: map<string, PathItem>, name: string, child: string)
    ensures child in Dependencies(schemas, name) <==>
            child != "" && name in schemas && exists at :: RefAt(schemas[name], at, "#/components/schemas/" + child)
    ensures child in NeededBy(paths) <==>
            exists p, at :: p in paths && RefAt(JObj(paths[p]), at, "#/components/schemas/" + child)
  {
    var ref := "#/components/schemas/" + child;
    NameIff(Refs(Definition(schemas, name)), child);
    if name in schemas { RefsArePositions(schemas[name], ref); }
    NameIff(Refs(PathsAsJson(paths)), child);
    PathRefs(paths, ref);
    forall p | p in paths ensures ref in Refs(JObj(paths[p])) <==> exists at :: RefAt(JObj(paths[p]), at, ref) {
      RefsArePositions(JObj(paths[p]), ref);
    }
  }

  /** The projection invents nothing: every path and entry it returns was in the source, every
      path still has a method, and `rest` is the source's. */
  lemma ProjectionInventsNothing(audience: Audience, doc: Document)
    ensures var out := Project(audience, doc);
            && out.rest == doc.rest
            && (forall p :: p in out.paths ==>
                  p in doc.paths && out.paths[p].Keys <= doc.paths[p].Keys &&
                  exists m :: m in out.paths[p] && IsMethod(m))
            && (forall n :: n in out.schemas ==> n in doc.schemas && out.schemas[n] == doc.schemas[n])
  {
    var out := Project(audience, doc);
    forall p | p in out.paths ensures exists m :: m in out.paths[p] && IsMethod(m) {
      var m :| m in VisibleItem(audience, doc.paths[p]).Keys * HTTP_METHODS;
      MethodIff(m);
      assert m in out.paths[p];
    }
  }

  // ---- What removing "x-surfaces" does to the references ----

  /** The references under an operation's "x-surfaces": they are collected, then go with the key. */
  function SurfaceRefs(m: string, entry: Json): set<string> {
    if IsOperation(m, entry) && "x-surfaces" in entry.fields then Refs(entry.fields["x-surfaces"]) else {}
  }

  function ItemSurfaceRefs(item: PathItem): set<string> {
    set m, r | m in item && r in SurfaceRefs(m, item[m]) :: r
  }

  function PathSurfaceRefs(paths: map<string, PathItem>): set<string> {
    set p, r | p in paths && r in ItemSurfaceRefs(paths[p]) :: r
  }

  lemma StrippedEntryRefs(m: string, entry: Json)
    ensures FieldRefs(m, entry) == FieldRefs(m, Stripped(m, entry)) + SurfaceRefs(m, entry)
  {
    if IsOperation(m, entry) {
      var less := entry.fields - {"x-surfaces"};
      forall r ensures r in Refs(entry) <==> r in Refs(JObj(less)) || r in SurfaceRefs(m, entry) {
        if r in Refs(entry) {
          var k :| k in entry.fields && r in FieldRefs(k, entry.fields[k]);
          assert k in less ==> r in FieldRefs(k, less[k]);
        }
        if r in Refs(JObj(less)) {
          var k :| k in less && r in FieldRefs(k, less[k]);
          assert r in FieldRefs(k, entry.fields[k]);
        }
        if r in SurfaceRefs(m, entry) {
          assert r in FieldRefs("x-surfaces", entry.fields["x-surfaces"]);
        }
      }
    }
  }

  lemma StrippedItemRefs(item: PathItem)
    ensures Refs(JObj(item)) == Refs(JObj(StrippedItem(item))) + ItemSurfaceRefs(item)
  {
    var stripped := StrippedItem(item);
    forall m | m in item ensures FieldRefs(m, item[m]) == FieldRefs(m, stripped[m]) + SurfaceRefs(m, item[m]) {
      StrippedEntryRefs(m, item[m]);
    }
    forall r ensures r in Refs(JObj(item)) <==> r in Refs(JObj(stripped)) || r in ItemSurfaceRefs(item) {
      if r in Refs(JObj(stripped)) {
        var m :| m in stripped && r in FieldRefs(m, stripped[m]);
        assert r in FieldRefs(m, item[m]);
      }
      if r in Refs(JObj(item)) {
        var m :| m in item && r in FieldRefs(m, item[m]);
        assert r in FieldRefs(m, stripped[m]) || r in SurfaceRefs(m, item[m]);
      }
      if r in ItemSurfaceRefs(item) {
        var m :| m in item && r in SurfaceRefs(m, item[m]);
        assert r in FieldRefs(m, item[m]);
      }
    }
  }

  lemma PathRefs(paths: map<string, PathItem>, r: string)
    ensures r in Refs(PathsAsJson(paths)) <==> exists p :: p in paths && r in Refs(JObj(paths[p]))
  {
    var fields := map p | p in paths :: JObj(paths[p]);
    assert PathsAsJson(paths) == JObj(fields);
    if r in Refs(JObj(fields)) {
      var p :| p in fields && r in FieldRefs(p, fields[p]);
      assert p in paths && r in Refs(JObj(paths[p]));
    }
    if p :| p in paths && r in Refs(JObj(paths[p])) {
      assert p in fields && r in FieldRefs(p, fields[p]);
    }
  }

  lemma NamesOfUnion(a: set<string>, b: set<string>)
    ensures Names(a + b) == Names(a) + Names(b)
  {
  }

  lemma StrippedPathRefs(paths: map<string, PathItem>, stripped: map<string, PathItem>, r: string)
    requires stripped == StrippedPaths(paths)
    ensures r in Refs(PathsAsJson(paths)) <==> r in Refs(PathsAsJson(stripped)) || r in PathSurfaceRefs(paths)
  {
    PathRefs(paths, r);
    PathRefs(stripped, r);
    forall p | p in paths
      ensures r in Refs(JObj(paths[p])) <==> r in Refs(JObj(stripped[p])) || r in ItemSurfaceRefs(paths[p])
    {
      StrippedItemRefs(paths[p]);
    }
  }

  /** What the paths needed is what they still need without "x-surfaces", and what those named. */
  lemma StrippedPathsNeed(paths: map<string, PathItem>)
    ensures NeededBy(paths) == NeededBy(StrippedPaths(paths)) + Names(PathSurfaceRefs(paths))
  {
    var stripped := StrippedPaths(paths);
    var (before, after, extra) := (Refs(PathsAsJson(paths)), Refs(PathsAsJson(stripped)), PathSurfaceRefs(paths));
    forall r ensures r in before <==> r in after + extra { StrippedPathRefs(paths, stripped, r); }
    assert before == after + extra;
    NamesOfUnion(after, extra);
  }

  // ---- Minimality ----

  /** The names under the "x-surfaces" of the operations that are kept. */
  ghost function SurfaceNames(audience: Audience, doc: Document): set<string> {
    Names(PathSurfaceRefs(VisiblePaths(audience, doc.paths)))
  }

  /** A component is kept iff the output's own paths, or a removed "x-surfaces", reach it. */
  lemma KeptIffReached(audience: Audience, doc: Document, name: string)
    ensures var out := Project(audience, doc);
            name in out.schemas <==>
            name in doc.schemas && Reachable(doc.schemas, NeededBy(out.paths) + SurfaceNames(audience, doc), name)
  {
    StrippedPathsNeed(VisiblePaths(audience, doc.paths));
  }

  /** The components of the output are those its own paths reach. */
  ghost predicate Minimal(doc: Document, out: Document) {
    forall name :: name in out.schemas <==> name in doc.schemas && Reachable(doc.schemas, NeededBy(out.paths), name)
  }

  /** Whatever a kept operation names under "x-surfaces" is also reached without it. */
  ghost predicate SurfacesNameNothingNew(audience: Audience, doc: Document) {
    forall name :: name in SurfaceNames(audience, doc) && name in doc.schemas ==>
      Reachable(doc.schemas, NeededBy(StrippedPaths(VisiblePaths(audience, doc.paths))), name)
  }

  lemma NoDependencies(components: Components, name: string)
    requires name !in components
    ensures Dependencies(components, name) == {}
  {
  }

  lemma {:induction false} ChainFromBase(components: Components, base: set<string>, extra: set<string>,
                                         chain: seq<string>)
    requires forall n :: n in extra && n in components ==> Reachable(components, base, n)
    requires IsChain(components, base + extra, chain) && chain[|chain| - 1] in components
    ensures Reachable(components, base, chain[|chain| - 1])
  {
    var last := chain[|chain| - 1];
    if |chain| == 1 {
      if last in base { ReachableStart(components, base, last); }
    } else {
      var front := chain[..|chain| - 1];
      assert IsChain(components, base + extra, front);
      assert chain[|chain| - 2 + 1] in Dependencies(components, front[|front| - 1]);
      if front[|front| - 1] !in components { NoDependencies(components, front[|front| - 1]); }
      ChainFromBase(components, base, extra, front);
      ReachableStep(components, base, front[|front| - 1], last);
    }
  }

  /** Growing the start set keeps what is reached, and the components it allows to grow. */
  lemma {:induction false} ReachableGrows(small: Components, big: Components, needed: set<string>, more: set<string>,
                                          name: string)
    requires forall n :: n in small ==> n in big && big[n] == small[n]
    requires needed <= more && Reachable(small, needed, name)
    ensures Reachable(big, more, name)
  {
  }

  lemma ExtraReachesNothingNew(components: Components, base: set<string>, extra: set<string>, name: string)
    requires forall n :: n in extra && n in components ==> Reachable(components, base, n)
    requires name in components
    ensures Reachable(components, base + extra, name) <==> Reachable(components, base, name)
  {
    if Reachable(components, base + extra, name) {
      var chain :| IsChain(components, base + extra, chain) && chain[|chain| - 1] == name;
      ChainFromBase(components, base, extra, chain);
    }
    if Reachable(components, base, name) { ReachableGrows(components, components, base, base + extra, name); }
  }

  /** The projection is minimal iff the operations it keeps name nothing new under "x-surfaces". */
  lemma MinimalIff(audience: Audience, doc: Document, out: Document)
    requires out == Project(audience, doc)
    ensures Minimal(doc, out) <==> SurfacesNameNothingNew(audience, doc)
  {
    var (base, extra) := (NeededBy(out.paths), SurfaceNames(audience, doc));
    forall name ensures name in out.schemas <==> name in doc.schemas && Reachable(doc.schemas, base + extra, name) {
      KeptIffReached(audience, doc, name);
    }
    if Minimal(doc, out) {
      forall name | name in extra && name in doc.schemas ensures Reachable(doc.schemas, base, name) {
        ReachableStart(doc.schemas, base + extra, name);
        assert name in out.schemas;
      }
    }
    if SurfacesNameNothingNew(audience, doc) {
      forall name | name in doc.schemas
        ensures Reachable(doc.schemas, base + extra, name) <==> Reachable(doc.schemas, base, name)
      {
        ExtraReachesNothingNew(doc.schemas, base, extra, name);
      }
    }
  }

  /** No operation declares its surfaces as a dict: every route of the application uses a list. */
  ghost predicate ListedSurfaces(doc: Document) {
    forall p, m ::
      p in doc.paths && m in doc.paths[p] && IsOperation(m, doc.paths[p][m]) &&
      "x-surfaces" in doc.paths[p][m].fields ==>
      !doc.paths[p][m].fields["x-surfaces"].JObj?
  }

  lemma ListsHoldNoReference(value: Json)
    requires Iterated(value).Some? && !value.JObj?
    ensures Refs(value) == {}
  {
  }

  /** So on the documents the application produces the projection is minimal. */
  lemma ListsNameNothingNew(audience: Audience, doc: Document)
    requires ReadablePaths(doc.paths) && ListedSurfaces(doc)
    ensures SurfacesNameNothingNew(audience, doc)
  {
    var visible := VisiblePaths(audience, doc.paths);
    forall p, m | p in visible && m in visible[p] ensures SurfaceRefs(m, visible[p][m]) == {} {
      var entry := doc.paths[p][m];
      assert visible[p][m] == entry && ReadableItem(doc.paths[p]);
      if IsOperation(m, entry) && "x-surfaces" in entry.fields { ListsHoldNoReference(entry.fields["x-surfaces"]); }
    }
    assert PathSurfaceRefs(visible) == {};
  }

  // ---- Closure ----

  /** Every name a path of the output mentions, if it resolved in the source, still resolves. */
  lemma PathsStayResolved(audience: Audience, doc: Document, name: string)
    requires name in NeededBy(Project(audience, doc).paths) && name in doc.schemas
    ensures name in Project(audience, doc).schemas
  {
    ReachableStart(doc.schemas, NeededBy(Project(audience, doc).paths) + SurfaceNames(audience, doc), name);
    KeptIffReached(audience, doc, name);
  }

  /** Every reference from a kept component to a component of the source still resolves. */
  ghost predicate ComponentsStayResolved(schemas: Components, kept: Components) {
    forall n, child :: n in kept && child in Names(Refs(kept[n])) && child in schemas ==> child in kept
  }

  /** The one reference the closure does not follow: the bare prefix "#/components/schemas/", which
      names the component "". Some component reached from `needed` holds it, and `needed` does not
      have it. */
  ghost predicate BareReferenceDropped(schemas: Components, needed: set<string>) {
    && "" in schemas && "" !in needed
    && exists n :: n in schemas && Reachable(schemas, needed, n) && "" in Names(Refs(schemas[n]))
  }

  lemma {:induction false} OnlyNeededReachesEmptyName(components: Components, needed: set<string>)
    requires Reachable(components, needed, "")
    ensures "" in needed
  {
    var chain :| IsChain(components, needed, chain) && chain[|chain| - 1] == "";
    var last := |chain| - 2;
    assert last < 0 || chain[last + 1] in Dependencies(components, chain[last]);
  }

  /** The components reached from `needed`. */
  ghost predicate IsReached(schemas: Components, needed: set<string>, kept: Components) {
    kept == map n | n in schemas && Reachable(schemas, needed, n) :: schemas[n]
  }

  lemma ReferencesAreReached(schemas: Components, needed: set<string>, kept: Components, n: string, child: string)
    requires IsReached(schemas, needed, kept)
    requires n in kept && child in Names(Refs(kept[n])) && child in schemas
    ensures child in kept <==> child != "" || "" in needed
  {
    if child != "" {
      ReachableStep(schemas, needed, n, child);
    } else if "" in needed {
      ReachableStart(schemas, needed, "");
    } else if Reachable(schemas, needed, "") {
      OnlyNeededReachesEmptyName(schemas, needed);
    }
  }

  lemma ReachedIsClosedIff(schemas: Components, needed: set<string>, kept: Components)
    requires IsReached(schemas, needed, kept)
    ensures ComponentsStayResolved(schemas, kept) <==> !BareReferenceDropped(schemas, needed)
  {
    forall n, child | n in kept && child in Names(Refs(kept[n])) && child in schemas
      ensures child in kept <==> child != "" || "" in needed
    {
      ReferencesAreReached(schemas, needed, kept, n, child);
    }
    if BareReferenceDropped(schemas, needed) {
      var n :| n in schemas && Reachable(schemas, needed, n) && "" in Names(Refs(schemas[n]));
      assert n in kept && "" in Names(Refs(kept[n]));
    }
  }

  /** References between kept components stay resolved iff the source, seen from its visible paths,
      does not need a component that holds the bare reference. */
  lemma ComponentsAreClosedIff(audience: Audience, doc: Document, out: Document)
    requires out == Project(audience, doc)
    ensures ComponentsStayResolved(doc.schemas, out.schemas) <==>
            !BareReferenceDropped(doc.schemas, NeededBy(VisiblePaths(audience, doc.paths)))
    ensures "" !in doc.schemas ==> ComponentsStayResolved(doc.schemas, out.schemas)
  {
    ReachedIsClosedIff(doc.schemas, NeededBy(VisiblePaths(audience, doc.paths)), out.schemas);
  }

  const BARE := JObj(map["$ref" := JStr(SCHEMA_PREFIX)])
  const TO_A := JObj(map["$ref" := JStr(SCHEMA_PREFIX + "A")])

  /** One path needing "A", whose definition refers to "" with the bare prefix. */
  const BARE_DOCUMENT := Document(map["/a" := map["get" := TO_A]], map["A" := BARE, "" := JNull], JNull)

  lemma SingleReference(key: string, ref: string)
    ensures Refs(JObj(map["$ref" := JStr(ref)])) == {ref}
    ensures Refs(JObj(map[key := JObj(map["$ref" := JStr(ref)])])) == {ref}
  {
    var inner := JObj(map["$ref" := JStr(ref)]);
    assert FieldRefs("$ref", inner.fields["$ref"]) == {ref};
    var outer := JObj(map[key := inner]);
    assert FieldRefs(key, outer.fields[key]) == {ref};
  }

  lemma BareDocumentIsVisible()
    ensures VisiblePaths(Client, BARE_DOCUMENT.paths) == BARE_DOCUMENT.paths
  {
    var item := BARE_DOCUMENT.paths["/a"];
    assert "client" in Allowed(Client) * Surfaces(TO_A);
    assert VisibleItem(Client, item) == item;
    assert "get" in item.Keys * HTTP_METHODS;
  }

  lemma SinglePathRefs(p: string, item: PathItem, ref: string)
    requires Refs(JObj(item)) == {ref}
    ensures Refs(PathsAsJson(map[p := item])) == {ref}
  {
    var paths := map[p := item];
    forall r ensures r in Refs(PathsAsJson(paths)) <==> r == ref {
      PathRefs(paths, r);
      assert p in paths && paths[p] == item;
    }
  }

  lemma NameOfReference(name: string)
    ensures Names({SCHEMA_PREFIX + name}) == {name}
  {
  }

  lemma BareDocumentNeedsA()
    ensures VisiblePaths(Client, BARE_DOCUMENT.paths) == BARE_DOCUMENT.paths
    ensures NeededBy(BARE_DOCUMENT.paths) == {"A"}
  {
    BareDocumentIsVisible();
    SingleReference("get", SCHEMA_PREFIX + "A");
    SinglePathRefs("/a", map["get" := TO_A], SCHEMA_PREFIX + "A");
    NameOfReference("A");
  }

  lemma BareReferenceNamesEmpty()
    ensures "" in Names(Refs(BARE))
  {
    SingleReference("get", SCHEMA_PREFIX);
    assert SCHEMA_PREFIX + "" == SCHEMA_PREFIX;
    NameOfReference("");
  }

  lemma BareSchemasReach()
    ensures Reachable(BARE_DOCUMENT.schemas, {"A"}, "A")
    ensures !Reachable(BARE_DOCUMENT.schemas, {"A"}, "")
  {
    ReachableStart(BARE_DOCUMENT.schemas, {"A"}, "A");
    if Reachable(BARE_DOCUMENT.schemas, {"A"}, "") { OnlyNeededReachesEmptyName(BARE_DOCUMENT.schemas, {"A"}); }
  }

  lemma BareDocumentKeepsA(out: Document)
    requires out == Project(Client, BARE_DOCUMENT)
    ensures "A" in out.schemas && "" !in out.schemas
  {
    BareDocumentNeedsA();
    BareSchemasReach();
  }

  /** A document whose projection does break a reference between components. */
  lemma BareReferenceExample(out: Document)
    requires out == Project(Client, BARE_DOCUMENT)
    ensures !ComponentsStayResolved(BARE_DOCUMENT.schemas, out.schemas)
  {
    BareDocumentKeepsA(out);
    BareReferenceNamesEmpty();
    assert out.schemas["A"] == BARE;
  }

  const NAMES_A := JObj(map["x-surfaces" := JObj(map["client" := TO_A])])

  /** The only mention of "A" is under an operation's "x-surfaces". */
  const SURFACE_DOCUMENT := Document(map["/a" := map["get" := NAMES_A]], map["A" := JNull], JNull)

  lemma SurfaceDocumentIsVisible()
    ensures VisiblePaths(Client, SURFACE_DOCUMENT.paths) == SURFACE_DOCUMENT.paths
    ensures ReadablePaths(SURFACE_DOCUMENT.paths)
  {
    var item := SURFACE_DOCUMENT.paths["/a"];
    assert "client" in Allowed(Client) * Surfaces(NAMES_A);
    assert VisibleItem(Client, item) == item;
    assert "get" in item.Keys * HTTP_METHODS;
  }

  lemma SurfaceDocumentNamesA()
    ensures Names(PathSurfaceRefs(SURFACE_DOCUMENT.paths)) == {"A"}
  {
    var item := SURFACE_DOCUMENT.paths["/a"];
    SingleReference("client", SCHEMA_PREFIX + "A");
    assert SurfaceRefs("get", item["get"]) == {SCHEMA_PREFIX + "A"};
    assert ItemSurfaceRefs(item) == {SCHEMA_PREFIX + "A"};
    assert PathSurfaceRefs(SURFACE_DOCUMENT.paths) == {SCHEMA_PREFIX + "A"};
    NameOfReference("A");
  }

  lemma NothingReachedFromNothing(schemas: Components, name: string)
    ensures !Reachable(schemas, {}, name)
  {
  }

  /** A document whose projection keeps a component that nothing in the output mentions. */
  lemma SurfaceReferenceExample(out: Document)
    requires out == Project(Client, SURFACE_DOCUMENT)
    ensures ReadablePaths(SURFACE_DOCUMENT.paths) && !Minimal(SURFACE_DOCUMENT, out)
  {
    SurfaceDocumentIsVisible();
    SurfaceDocumentNamesA();
    StrippedExampleNeedsNothing();
    NothingReachedFromNothing(SURFACE_DOCUMENT.schemas, "A");
    MinimalIff(Client, SURFACE_DOCUMENT, out);
    assert "A" in SurfaceNames(Client, SURFACE_DOCUMENT);
  }

  lemma StrippedExampleNeedsNothing()
    ensures NeededBy(StrippedPaths(SURFACE_DOCUMENT.paths)) == {}
  {
    var stripped := StrippedPaths(SURFACE_DOCUMENT.paths);
    assert NAMES_A.fields - {"x-surfaces"} == map[];
    assert stripped["/a"] == map["get" := JObj(map[])];
    assert Refs(JObj(map[])) == {};
    assert FieldRefs("get", JObj(map[])) == {};
    assert Refs(JObj(stripped["/a"])) == {};
    forall r ensures r !in Refs(PathsAsJson(stripped)) { PathRefs(stripped, r); }
  }

  // ---- Projecting twice ----

  /** A chain of components that are all kept is a chain in what is kept. */
  lemma {:induction false} ChainSurvives(schemas: Components, kept: Components, needed: set<string>, chain: seq<string>)
    requires IsChain(schemas, needed, chain)
    requires kept == map n | n in schemas && n in kept :: schemas[n]
    requires forall n :: n in schemas && Reachable(schemas, needed, n) ==> n in kept
    ensures IsChain(kept, needed, chain)
  {
    forall i | 0 <= i < |chain| - 1 ensures chain[i + 1] in Dependencies(kept, chain[i]) {
      assert IsChain(schemas, needed, chain[..i + 1]);
      assert chain[..i + 1][|chain[..i + 1]| - 1] == chain[i];
      assert Reachable(schemas, needed, chain[i]);
      assert Definition(kept, chain[i]) == Definition(schemas, chain[i]);
    }
  }

  lemma StrippedIsVisible(audience: Audience, m: string, entry: Json)
    ensures !Hidden(audience, m, Stripped(m, entry)) && Stripped(m, Stripped(m, entry)) == Stripped(m, entry)
  {
    if IsOperation(m, entry) {
      var again := Stripped(m, entry);
      assert "shared" in Allowed(audience) * Surfaces(again);
      assert again.fields - {"x-surfaces"} == again.fields;
    }
  }

  lemma ItemProjectsToItself(audience: Audience, item: PathItem)
    ensures var out := StrippedItem(item);
            VisibleItem(audience, out) == out && StrippedItem(out) == out
  {
    forall m | m in item
      ensures !Hidden(audience, m, Stripped(m, item[m]))
      ensures Stripped(m, Stripped(m, item[m])) == Stripped(m, item[m])
    {
      StrippedIsVisible(audience, m, item[m]);
    }
  }

  lemma PathsProjectToThemselves(audience: Audience, doc: Document)
    ensures var out := Project(audience, doc).paths;
            VisiblePaths(audience, out) == out && StrippedPaths(out) == out
  {
    var visible := VisiblePaths(audience, doc.paths);
    forall p | p in visible ensures visible[p].Keys * HTTP_METHODS != {} {
      assert visible[p] == VisibleItem(audience, doc.paths[p]);
    }
    StrippedPathsStay(audience, visible);
  }

  lemma StrippedPathsStay(audience: Audience, visible: map<string, PathItem>)
    requires forall p :: p in visible ==> visible[p].Keys * HTTP_METHODS != {}
    ensures var out := StrippedPaths(visible);
            VisiblePaths(audience, out) == out && StrippedPaths(out) == out
  {
    var out := StrippedPaths(visible);
    forall p | p in out
      ensures VisibleItem(audience, out[p]) == out[p] && StrippedItem(out[p]) == out[p] &&
              out[p].Keys * HTTP_METHODS != {}
    {
      ItemProjectsToItself(audience, visible[p]);
      assert out[p].Keys == visible[p].Keys;
    }
  }

  /** What is kept for `more` is reached from `needed` within itself iff it is in the source. */
  lemma ReachedWithinIff(schemas: Components, kept: Components, needed: set<string>, more: set<string>, n: string)
    requires IsReached(schemas, more, kept) && needed <= more && n in kept
    ensures Reachable(kept, needed, n) <==> Reachable(schemas, needed, n)
  {
    forall k | k in schemas && Reachable(schemas, needed, k) ensures k in kept {
      ReachableGrows(schemas, schemas, needed, more, k);
    }
    if Reachable(schemas, needed, n) {
      var chain :| IsChain(schemas, needed, chain) && chain[|chain| - 1] == n;
      ChainSurvives(schemas, kept, needed, chain);
    }
    if Reachable(kept, needed, n) { ReachableGrows(kept, schemas, needed, needed, n); }
  }

  lemma ReachedStaysIff(schemas: Components, kept: Components, needed: set<string>, more: set<string>)
    requires IsReached(schemas, more, kept) && needed <= more
    ensures IsReached(kept, needed, kept) <==> IsReached(schemas, needed, kept)
  {
    forall n | n in kept ensures Reachable(kept, needed, n) <==> Reachable(schemas, needed, n) {
      ReachedWithinIff(schemas, kept, needed, more, n);
    }
    forall n | n in schemas && Reachable(schemas, needed, n) ensures n in kept {
      ReachableGrows(schemas, schemas, needed, more, n);
    }
    AllReachedIff(kept, needed);
    if forall n :: n in kept ==> Reachable(schemas, needed, n) {
      assert IsReached(schemas, needed, kept);
    }
    if IsReached(schemas, needed, kept) {
      assert forall n :: n in kept ==> Reachable(schemas, needed, n);
    }
  }

  lemma MinimalIsReached(doc: Document, out: Document)
    requires forall n :: n in out.schemas ==> n in doc.schemas && out.schemas[n] == doc.schemas[n]
    ensures Minimal(doc, out) <==> IsReached(doc.schemas, NeededBy(out.paths), out.schemas)
  {
  }

  /** Pruning the output's components again removes nothing iff they are minimal. */
  lemma KeptSchemasStayIff(audience: Audience, doc: Document, out: Document)
    requires out == Project(audience, doc)
    ensures KeptSchemas(out.paths, out.schemas) == out.schemas <==> Minimal(doc, out)
  {
    StrippedPathsNeed(VisiblePaths(audience, doc.paths));
    ReachedStaysIff(doc.schemas, out.schemas, NeededBy(out.paths), NeededBy(VisiblePaths(audience, doc.paths)));
    MinimalIsReached(doc, out);
  }

  lemma AllReachedIff(schemas: Components, needed: set<string>)
    ensures (map n | n in schemas && Reachable(schemas, needed, n) :: schemas[n]) == schemas <==>
            forall n :: n in schemas ==> Reachable(schemas, needed, n)
  {
  }

  /** Projecting the output again for the same audience changes nothing iff the projection was
      minimal, that is, iff "x-surfaces" named nothing new. */
  lemma ProjectionIsIdempotentIff(audience: Audience, doc: Document, out: Document)
    requires out == Project(audience, doc)
    ensures Project(audience, out) == out <==> SurfacesNameNothingNew(audience, doc)
  {
    PathsProjectToThemselves(audience, doc);
    KeptSchemasStayIff(audience, doc, out);
    MinimalIff(audience, doc, out);
  }
}
