/** The audience projection of an OpenAPI document: what it means, and what it guarantees.
    The code that computes it is in `OpenApiBuilder`. */
module OpenApi {
  import opened Json
  import opened Prelude

  const HTTP_METHODS: set<string> :=
    {"get", "post", "put", "patch", "delete", "options", "head", "trace"}

  const SCHEMA_PREFIX: string := "#/components/schemas/"

  datatype Audience = Admin | Client

  datatype SchemaError = TypeError

  type PathItem = map<string, Json>
  type Components = map<string, Json>

  /** The parts of the document the projection reads, and `rest`, which it never looks at. */
  datatype Document = Document(paths: map<string, PathItem>, schemas: Components, rest: Json)

  function Allowed(audience: Audience): set<string> {
    if audience.Client? then {"client", "shared"} else {"admin", "shared"}
  }

  // ---- Reference names and reachability ----

  /** "#/components/schemas/Foo" names "Foo"; other references name nothing. */
  function ExtractSchemaName(ref: string): Option<string> {
    if SCHEMA_PREFIX <= ref then Some(ref[|SCHEMA_PREFIX|..]) else None
  }

  /** The names that a set of references mentions. */
  function Names(refs: set<string>): set<string> {
    set ref | ref in refs && ExtractSchemaName(ref).Some? :: ExtractSchemaName(ref).value
  }

  function Definition(components: Components, name: string): Json {
    if name in components then components[name] else JObj(map[])
  }

  /** The dependencies the closure follows: non-empty names mentioned by the definition. */
  function Dependencies(components: Components, name: string): set<string> {
    Names(Refs(Definition(components, name))) - {""}
  }

  /** `chain` starts in `needed` and follows one dependency at a time. */
  ghost predicate IsChain(components: Components, needed: set<string>, chain: seq<string>) {
    && chain != []
    && chain[0] in needed
    && forall i :: 0 <= i < |chain| - 1 ==> chain[i + 1] in Dependencies(components, chain[i])
  }

  ghost predicate Reachable(components: Components, needed: set<string>, name: string) {
    exists chain :: IsChain(components, needed, chain) && chain[|chain| - 1] == name
  }

  lemma ReachableStart(components: Components, needed: set<string>, name: string)
    requires name in needed
    ensures Reachable(components, needed, name)
  {
    assert IsChain(components, needed, [name]);
  }

  lemma ReachableStep(components: Components, needed: set<string>, name: string, child: string)
    requires Reachable(components, needed, name)
    requires child in Dependencies(components, name)
    ensures Reachable(components, needed, child)
  {
    var chain :| IsChain(components, needed, chain) && chain[|chain| - 1] == name;
    assert IsChain(components, needed, chain + [child]);
  }

  ghost predicate Closed(components: Components, names: set<string>) {
    forall name :: name in names ==> Dependencies(components, name) <= names
  }

  lemma {:induction false} ChainStaysInside(components: Components, needed: set<string>, names: set<string>,
                                            chain: seq<string>)
    requires Closed(components, names) && needed <= names
    requires IsChain(components, needed, chain)
    ensures forall i :: 0 <= i < |chain| ==> chain[i] in names
  {
    if |chain| > 1 {
      var front := chain[..|chain| - 1];
      assert IsChain(components, needed, front);
      ChainStaysInside(components, needed, names, front);
      assert front[|front| - 1] in names;
      assert chain[|front| - 1 + 1] in Dependencies(components, chain[|front| - 1]);
      forall i | 0 <= i < |chain| ensures chain[i] in names {
        if i < |front| { assert chain[i] == front[i]; }
      }
    }
  }

  /** Being reachable from `needed` is being in every closed set that contains `needed`. */
  lemma ReachableIsLeastClosed(components: Components, needed: set<string>, names: set<string>)
    requires Closed(components, names) && needed <= names
    ensures forall name :: Reachable(components, needed, name) ==> name in names
  {
    forall name | Reachable(components, needed, name) ensures name in names {
      var chain :| IsChain(components, needed, chain) && chain[|chain| - 1] == name;
      ChainStaysInside(components, needed, names, chain);
    }
  }

  // ---- The projection ----

  predicate IsOperation(method_: string, operation: Json) {
    method_ in HTTP_METHODS && operation.JObj?
  }

  /** The strings met when the value of "x-surfaces" is iterated: the items of a list, the characters
      of a text, the keys of a dict. A scalar cannot be iterated, and a list or dict among the items
      cannot be looked up in a set: both raise TypeError. */
  function Iterated(value: Json): Option<set<string>> {
    match value
    case JList(items) =>
      if exists i :: 0 <= i < |items| && (items[i].JList? || items[i].JObj?) then None
      else Some(set i | 0 <= i < |items| && items[i].JStr? :: items[i].s)
    case JStr(s) => Some(set i | 0 <= i < |s| :: [s[i]])
    case JObj(fields) => Some(fields.Keys)
    case _ => None
  }

  predicate Readable(operation: Json) {
    operation.JObj? && "x-surfaces" in operation.fields ==> Iterated(operation.fields["x-surfaces"]).Some?
  }

  predicate ReadableItem(item: PathItem) {
    forall m :: m in item && IsOperation(m, item[m]) ==> Readable(item[m])
  }

  /** No operation raises: the documents that can be projected at all. */
  predicate ReadablePaths(paths: map<string, PathItem>) {
    forall p :: p in paths ==> ReadableItem(paths[p])
  }

  /** The surfaces an operation declares; one without a declaration belongs to all of them. */
  function Surfaces(operation: Json): set<string>
    requires operation.JObj?
  {
    if "x-surfaces" !in operation.fields then {"admin", "client", "shared"}
    else match Iterated(operation.fields["x-surfaces"])
      case Some(surfaces) => surfaces
      case None => {}
  }

  predicate Visible(audience: Audience, operation: Json)
    requires operation.JObj?
  {
    Allowed(audience) * Surfaces(operation) != {}
  }

  ghost predicate Hidden(audience: Audience, m: string, entry: Json) {
    IsOperation(m, entry) && !Visible(audience, entry)
  }

  ghost function VisibleItem(audience: Audience, item: PathItem): PathItem {
    map m | m in item && !Hidden(audience, m, item[m]) :: item[m]
  }

  ghost function VisiblePaths(audience: Audience, paths: map<string, PathItem>): map<string, PathItem> {
    map p | p in paths && VisibleItem(audience, paths[p]).Keys * HTTP_METHODS != {} :: VisibleItem(audience, paths[p])
  }

  function Stripped(m: string, entry: Json): Json {
    if IsOperation(m, entry) then JObj(entry.fields - {"x-surfaces"}) else entry
  }

  function StrippedItem(item: PathItem): PathItem {
    map m | m in item :: Stripped(m, item[m])
  }

  function StrippedPaths(paths: map<string, PathItem>): map<string, PathItem> {
    map p | p in paths :: StrippedItem(paths[p])
  }

  function PathsAsJson(paths: map<string, PathItem>): Json {
    JObj(map p | p in paths :: JObj(paths[p]))
  }

  /** The component names that the operations and other path entries mention directly. */
  function NeededBy(paths: map<string, PathItem>): set<string> {
    Names(Refs(PathsAsJson(paths)))
  }

  ghost function KeptSchemas(paths: map<string, PathItem>, schemas: Components): Components {
    map n | n in schemas && Reachable(schemas, NeededBy(paths), n) :: schemas[n]
  }

  /** The projection of a document that can be projected. */
  ghost function Project(audience: Audience, doc: Document): Document {
    var paths := VisiblePaths(audience, doc.paths);
    Document(StrippedPaths(paths), KeptSchemas(paths, doc.schemas), doc.rest)
  }
}
