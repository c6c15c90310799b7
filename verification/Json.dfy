/** JSON trees as `json.loads` builds them: nested dicts and lists over scalars. */
module Json {
  import opened Prelude

  datatype Json =
    | JNull
    | JBool(b: bool)
    | JNum(n: int)
    | JStr(s: string)
    | JList(items: seq<Json>)
    | JObj(fields: map<string, Json>)

  /** What the pair `key: value` of a dict contributes: a string under "$ref" is a reference,
      anything else is searched recursively. */
  function FieldRefs(key: string, value: Json): set<string>
    decreases value, 1
  {
    if key == "$ref" && value.JStr? then {value.s} else Refs(value)
  }

  /** Every reference found anywhere in the tree. */
  function Refs(j: Json): set<string>
    decreases j, 0
  {
    match j
    case JList(items) => set i, r | 0 <= i < |items| && r in Refs(items[i]) :: r
    case JObj(fields) => set k, r | k in fields && r in FieldRefs(k, fields[k]) :: r
    case _ => {}
  }

  // ---- An independent reading of `Refs`: positions in the tree ----

  datatype Move = Field(key: string) | Index(at: nat)

  /** The subtree reached by following `path` from the root. */
  function Walk(j: Json, path: seq<Move>): Option<Json> {
    if path == [] then Some(j)
    else match path[0]
      case Field(k) => if j.JObj? && k in j.fields then Walk(j.fields[k], path[1..]) else None
      case Index(i) => if j.JList? && i < |j.items| then Walk(j.items[i], path[1..]) else None
  }

  /** Some dict of the tree, at position `path`, holds the string `r` under "$ref". */
  predicate RefAt(j: Json, path: seq<Move>, r: string) {
    Walk(j, path + [Field("$ref")]) == Some(JStr(r))
  }

  lemma {:induction false} RefHasPosition(j: Json, r: string) returns (path: seq<Move>)
    requires r in Refs(j)
    ensures RefAt(j, path, r)
  {
    match j
    case JList(items) =>
      var i :| 0 <= i < |items| && r in Refs(items[i]);
      var rest := RefHasPosition(items[i], r);
      path := [Index(i)] + rest;
      assert (path + [Field("$ref")])[1..] == rest + [Field("$ref")];
    case JObj(fields) =>
      var k :| k in fields && r in FieldRefs(k, fields[k]);
      if k == "$ref" && fields[k].JStr? {
        path := [];
        assert (path + [Field("$ref")])[1..] == [];
      } else {
        var rest := RefHasPosition(fields[k], r);
        path := [Field(k)] + rest;
        assert (path + [Field("$ref")])[1..] == rest + [Field("$ref")];
      }
    case _ =>
      assert false;
  }

  lemma {:induction false} PositionIsRef(j: Json, path: seq<Move>, r: string)
    requires RefAt(j, path, r)
    ensures r in Refs(j)
    decreases |path|
  {
    var full := path + [Field("$ref")];
    if path == [] {
      assert full == [Field("$ref")] && full[1..] == [];
      assert Walk(j, full) == Walk(j.fields["$ref"], []);
      assert j.JObj? && "$ref" in j.fields && r in FieldRefs("$ref", j.fields["$ref"]);
    } else {
      assert full[0] == path[0] && full[1..] == path[1..] + [Field("$ref")];
      match path[0]
      case Field(k) =>
        PositionIsRef(j.fields[k], path[1..], r);
        assert r in FieldRefs(k, j.fields[k]);
      case Index(i) =>
        PositionIsRef(j.items[i], path[1..], r);
    }
  }

  /** `Refs` is exactly the set of strings sitting under a "$ref" key at some position. */
  lemma RefsArePositions(j: Json, r: string)
    ensures r in Refs(j) <==> exists path :: RefAt(j, path, r)
  {
    if r in Refs(j) {
      var path := RefHasPosition(j, r);
    }
    if path :| RefAt(j, path, r) {
      PositionIsRef(j, path, r);
    }
  }
}
