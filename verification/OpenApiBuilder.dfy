/** The code that projects an OpenAPI document: reference collection, the worklist, the
    collect-then-delete filter and the per-audience cache. */
module OpenApiBuilder {
  import opened Json
  import opened OpenApi
  import opened Prelude

  /** Adds every reference of the tree to the set it is given. */
  method CollectRefs(obj: Json, seen: set<string>) returns (refs: set<string>)
    ensures refs == seen + Refs(obj)
    decreases obj
  {
    refs := seen;
    if obj.JObj? {
      var todo := obj.fields.Keys;
      while todo != {}
        invariant todo <= obj.fields.Keys
        invariant forall r :: r in refs <==>
          r in seen || exists k :: k in obj.fields.Keys - todo && r in FieldRefs(k, obj.fields[k])
        decreases todo
      {
        var key :| key in todo;
        var value := obj.fields[key];
        ghost var before, done := refs, obj.fields.Keys - todo;
        if key == "$ref" && value.JStr? {
          refs := refs + {value.s};
        } else {
          refs := CollectRefs(value, refs);
        }
        todo := todo - {key};
        assert refs == before + FieldRefs(key, value);
        assert obj.fields.Keys - todo == done + {key};
      }
    } else if obj.JList? {
      for i := 0 to |obj.items|
        invariant forall r :: r in refs <==> r in seen || exists k :: 0 <= k < i && r in Refs(obj.items[k])
      {
        refs := CollectRefs(obj.items[i], refs);
      }
    }
  }

  /** `list(names)`: the elements of a set in some order. */
  method ToList(names: set<string>) returns (list: seq<string>)
    ensures forall n :: n in list <==> n in names
  {
    list := [];
    var todo := names;
    while todo != {}
      invariant todo <= names
      invariant forall n :: n in list <==> n in names - todo
      decreases todo
    {
      var n :| n in todo;
      list := list + [n];
      todo := todo - {n};
    }
  }

  /** Names that can ever enter the queue: the start set and what any definition mentions. */
  ghost function Universe(components: Components, needed: set<string>): set<string> {
    needed + set n, child | n in components && child in Dependencies(components, n) :: child
  }

  lemma DependenciesInUniverse(components: Components, needed: set<string>, name: string)
    ensures Dependencies(components, name) <= Universe(components, needed)
  {
  }

  method PushChildren(refs: set<string>, visited: set<string>, queue: seq<string>) returns (extended: seq<string>)
    ensures forall n :: n in extended <==> n in queue || n in Names(refs) - {""} - visited
  {
    extended := queue;
    var todo := refs;
    while todo != {}
      invariant todo <= refs
      invariant forall n :: n in extended <==> n in queue || n in Names(refs - todo) - {""} - visited
      decreases todo
    {
      var ref :| ref in todo;
      var child := ExtractSchemaName(ref);
      ghost var done := refs - todo;
      if child.Some? && child.value != "" && child.value !in visited {
        extended := extended + [child.value];
      }
      todo := todo - {ref};
      assert refs - todo == done + {ref};
      assert Names(done + {ref}) == Names(done) + Names({ref});
      assert Names({ref}) == if child.Some? then {child.value} else {};
    }
    assert refs - todo == refs;
  }

  /** What the worklist keeps: everything seen is reachable, `needed` has been seen, and whatever a
      visited name depends on has been seen. */
  ghost predicate Worklist(components: Components, needed: set<string>, all: set<string>, queue: seq<string>) {
    && all <= Universe(components, needed)
    && (forall n :: n in queue ==> n in Universe(components, needed))
    && (forall n :: n in all || n in queue ==> Reachable(components, needed, n))
    && (forall n :: n in needed ==> n in all || n in queue)
    && (forall n, child :: n in all && child in Dependencies(components, n) ==> child in all || child in queue)
  }

  lemma WorklistVisit(components: Components, needed: set<string>, all: set<string>, queue: seq<string>, name: string,
                      extended: seq<string>)
    requires Worklist(components, needed, all, queue) && name in queue
    requires forall n :: n in extended ==> n in queue || n in Dependencies(components, name)
    requires forall n :: n in queue ==> n in extended || n == name
    requires Dependencies(components, name) <= all + {name} + set n | n in extended
    ensures Worklist(components, needed, all + {name}, extended)
  {
    DependenciesInUniverse(components, needed, name);
    forall n | n in Dependencies(components, name) ensures Reachable(components, needed, n) {
      ReachableStep(components, needed, name, n);
    }
  }

  lemma UniverseShrinks(components: Components, needed: set<string>, all: set<string>, queue: seq<string>, name: string)
    requires Worklist(components, needed, all, queue) && name in queue && name !in all
    ensures Universe(components, needed) - (all + {name}) < Universe(components, needed) - all
  {
  }

  lemma WorklistSkip(components: Components, needed: set<string>, all: set<string>, rest: seq<string>, name: string)
    requires Worklist(components, needed, all, rest + [name]) && name in all
    ensures Worklist(components, needed, all, rest)
  {
    assert forall n :: n in rest + [name] <==> n in rest || n == name;
  }

  lemma WorklistStart(components: Components, needed: set<string>, queue: seq<string>)
    requires forall n :: n in queue <==> n in needed
    ensures Worklist(components, needed, {}, queue)
  {
    forall n | n in queue ensures Reachable(components, needed, n) { ReachableStart(components, needed, n); }
  }

  lemma WorklistDone(components: Components, needed: set<string>, all: set<string>)
    requires Worklist(components, needed, all, [])
    ensures forall name :: name in all <==> Reachable(components, needed, name)
  {
    ReachableIsLeastClosed(components, needed, all);
  }

  /** Queues the dependencies of one name that are not visited yet. */
  method QueueDependencies(components: Components, name: string, visited: set<string>, queue: seq<string>)
    returns (extended: seq<string>)
    ensures forall n :: n in extended <==> n in queue || n in Dependencies(components, name) - visited
  {
    var schemaDef := if name in components then components[name] else JObj(map[]);
    var refs := CollectRefs(schemaDef, {});
    assert refs == Refs(Definition(components, name));
    extended := PushChildren(refs, visited, queue);
  }

  /** The worklist. The queue may hold duplicates and names that are no component at all; the loop
      ends all the same, with exactly the names reachable from `needed`. */
  method CollectAllSchemaRefs(components: Components, needed: set<string>) returns (all: set<string>)
    ensures forall name :: name in all <==> Reachable(components, needed, name)
  {
    all := {};
    var queue := ToList(needed);
    WorklistStart(components, needed, queue);
    while queue != []
      invariant Worklist(components, needed, all, queue)
      decreases Universe(components, needed) - all, |queue|
    {
      var name := queue[|queue| - 1];
      ghost var popped := queue;
      queue := queue[..|queue| - 1];
      assert popped == queue + [name];
      if name !in all {
        queue := QueueDependencies(components, name, all + {name}, queue);
        WorklistVisit(components, needed, all, popped, name, queue);
        UniverseShrinks(components, needed, all, popped, name);
        all := all + {name};
      } else {
        WorklistSkip(components, needed, all, queue, name);
      }
    }
    WorklistDone(components, needed, all);
  }

  /** Collects the methods to delete from one path item, then deletes them. */
  method FilterItem(audience: Audience, item: PathItem) returns (filtered: Result<PathItem, SchemaError>)
    ensures filtered == if ReadableItem(item) then Ok(VisibleItem(audience, item)) else Err(TypeError)
  {
    var methodsToDelete: set<string> := {};
    var todo := item.Keys;
    while todo != {}
      invariant todo <= item.Keys
      invariant methodsToDelete == set m | m in item.Keys - todo && Hidden(audience, m, item[m])
      invariant forall m :: m in item.Keys - todo && IsOperation(m, item[m]) ==> Readable(item[m])
      decreases todo
    {
      var m :| m in todo;
      todo := todo - {m};
      var operation := item[m];
      if m in HTTP_METHODS && operation.JObj? {
        if "x-surfaces" in operation.fields && Iterated(operation.fields["x-surfaces"]).None? { return Err(TypeError); }
        if Allowed(audience) * Surfaces(operation) == {} {
          methodsToDelete := methodsToDelete + {m};
        }
      }
    }
    var kept := item;
    ghost var deleted: set<string> := {};
    while methodsToDelete != {}
      invariant methodsToDelete + deleted == set m | m in item && Hidden(audience, m, item[m])
      invariant kept == item - deleted
      decreases methodsToDelete
    {
      var m :| m in methodsToDelete;
      methodsToDelete, deleted := methodsToDelete - {m}, deleted + {m};
      kept := kept - {m};
    }
    assert kept == VisibleItem(audience, item);
    filtered := Ok(kept);
  }

  method FilterPaths(audience: Audience, paths: map<string, PathItem>)
    returns (filtered: Result<map<string, PathItem>, SchemaError>)
    ensures filtered == if ReadablePaths(paths) then Ok(VisiblePaths(audience, paths)) else Err(TypeError)
  {
    var kept := paths;
    var pathsToDelete: set<string> := {};
    var todo := paths.Keys;
    while todo != {}
      invariant todo <= paths.Keys && kept.Keys == paths.Keys
      invariant pathsToDelete == set p | p in paths.Keys - todo &&
                VisibleItem(audience, paths[p]).Keys * HTTP_METHODS == {}
      invariant forall p :: p in todo ==> kept[p] == paths[p]
      invariant forall p :: p in paths.Keys - todo ==>
                ReadableItem(paths[p]) && kept[p] == VisibleItem(audience, paths[p])
      decreases todo
    {
      var p :| p in todo;
      todo := todo - {p};
      var item := FilterItem(audience, paths[p]);
      if item.Err? { return Err(TypeError); }
      kept := kept[p := item.value];
      if item.value.Keys * HTTP_METHODS == {} {
        pathsToDelete := pathsToDelete + {p};
      }
    }
    kept := kept - pathsToDelete;
    assert kept == VisiblePaths(audience, paths);
    filtered := Ok(kept);
  }

  method StripSurfaces(paths: map<string, PathItem>) returns (stripped: map<string, PathItem>)
    ensures stripped == StrippedPaths(paths)
  {
    stripped := paths;
    var todo := paths.Keys;
    while todo != {}
      invariant todo <= paths.Keys && stripped.Keys == paths.Keys
      invariant forall p :: p in todo ==> stripped[p] == paths[p]
      invariant forall p :: p in paths.Keys - todo ==> stripped[p] == StrippedItem(paths[p])
      decreases todo
    {
      var p :| p in todo;
      todo := todo - {p};
      var item := paths[p];
      var methods := item.Keys;
      while methods != {}
        invariant methods <= item.Keys == paths[p].Keys
        invariant forall m :: m in methods ==> item[m] == paths[p][m]
        invariant forall m :: m in item.Keys - methods ==> item[m] == Stripped(m, paths[p][m])
        decreases methods
      {
        var m :| m in methods;
        methods := methods - {m};
        if m in HTTP_METHODS && item[m].JObj? {
          item := item[m := JObj(item[m].fields - {"x-surfaces"})];
        }
      }
      assert item == StrippedItem(paths[p]);
      stripped := stripped[p := item];
    }
  }

  /** Deletes the components nobody needs. */
  method PruneSchemas(paths: map<string, PathItem>, schemas: Components) returns (kept: Components)
    ensures kept == KeptSchemas(paths, schemas)
  {
    kept := schemas;
    var usedRefs := CollectRefs(PathsAsJson(paths), {});
    if schemas != map[] {
      assert usedRefs == Refs(PathsAsJson(paths));
      var all := CollectAllSchemaRefs(schemas, Names(usedRefs));
      var todo := schemas.Keys;
      while todo != {}
        invariant todo <= schemas.Keys
        invariant kept == map n | n in schemas && (n in todo || n in all) :: schemas[n]
        decreases todo
      {
        var name :| name in todo;
        todo := todo - {name};
        if name !in all {
          kept := kept - {name};
        }
      }
    }
  }

  method BuildSchema(audience: Audience, doc: Document) returns (schema: Result<Document, SchemaError>)
    ensures schema == if ReadablePaths(doc.paths) then Ok(Project(audience, doc)) else Err(TypeError)
  {
    var paths := FilterPaths(audience, doc.paths);
    if paths.Err? { return Err(TypeError); }
    var schemas := PruneSchemas(paths.value, doc.schemas);
    var stripped := StripSurfaces(paths.value);
    schema := Ok(Document(stripped, schemas, doc.rest));
  }

  /** `generate_audience_schema` with its module-level cache, for one application's document. */
  class SchemaGenerator {
    const doc: Document
    const debug: bool
    var cache: map<Audience, Document>

    ghost predicate Valid()
      reads this
    {
      forall a :: a in cache ==> ReadablePaths(doc.paths) && cache[a] == Project(a, doc)
    }

    constructor (doc: Document, debug: bool)
      ensures Valid() && this.doc == doc && this.debug == debug && cache == map[]
    {
      this.doc, this.debug, cache := doc, debug, map[];
    }

    /** Cached or not, the caller gets the projection of the document, or the exception. */
    method Generate(audience: Audience) returns (schema: Result<Document, SchemaError>)
      requires Valid()
      modifies this
      ensures Valid()
      ensures schema == if ReadablePaths(doc.paths) then Ok(Project(audience, doc)) else Err(TypeError)
      ensures cache == if debug || schema.Err? then old(cache) else old(cache)[audience := schema.value]
    {
      if !debug && audience in cache {
        schema := Ok(cache[audience]);
        assert cache == cache[audience := cache[audience]];
        return;
      }
      schema := BuildSchema(audience, doc);
      if !debug && schema.Ok? {
        cache := cache[audience := schema.value];
      }
    }
  }
}
