/** The references inside imported schemas, and the whole validation of a schema set. */
module SchemaReferences {
  import opened Common
  import opened SchemaGraph

  datatype Json = Object(fields: seq<Field>) | Array(items: seq<Json>) | Text(text: string) | Scalar

  datatype Field = Field(key: string, value: Json)

  // ----- Reading one reference -----

  /** `str.split("/")` */
  function Split(s: string): (r: seq<string>)
    ensures r != []
  {
    if s == [] then [[]]
    else
      var rest := Split(s[1..]);
      if s[0] == '/' then [[]] + rest else [[s[0]] + rest[0]] + rest[1..]
  }

  /** `str.replace` of `~` followed by `digit` */
  function Unescape(s: string, digit: char, sub: char): string {
    if |s| < 2 then s
    else if s[0] == '~' && s[1] == digit then [sub] + Unescape(s[2..], digit, sub)
    else [s[0]] + Unescape(s[1..], digit, sub)
  }

  function Decode(segment: string): string {
    Unescape(Unescape(segment, '1', '/'), '0', '~')
  }

  /** The segments of a reference to a schema, except for the last. */
  predicate IsPlace(segments: seq<string>) {
    segments == ["components", "schemas"] || segments == ["definitions"] || segments == ["schemas"]
  }

  /** `_internal_ref`; None is its error. */
  function Resolve(ref: Json, names: set<string>): (r: Option<string>)
    ensures r.Some? ==> r.value in names
  {
    if !ref.Text? || !StartsWith(ref.text, "#/") then None
    else
      var parts := Split(ref.text[2..]);
      if !IsPlace(parts[..|parts| - 1]) then None
      else
        var name := Decode(parts[|parts| - 1]);
        if name in names then Some(name) else None
  }

  // ----- Which references resolve -----

  function Join(parts: seq<string>): string
    requires parts != []
  {
    if |parts| == 1 then parts[0] else parts[0] + "/" + Join(parts[1..])
  }

  lemma {:induction false} SplitJoin(s: string)
    ensures Join(Split(s)) == s && forall i :: 0 <= i < |Split(s)| ==> '/' !in Split(s)[i]
  {
    if s != [] {
      SplitJoin(s[1..]);
      var rest, parts := Split(s[1..]), Split(s);
      HeadTail(s);
      if s[0] == '/' {
        assert parts[1..] == rest;
        assert [] + "/" + s[1..] == s;
      } else {
        assert parts[0] == [s[0]] + rest[0] && parts[1..] == rest[1..];
        assert |rest| > 1 ==> [s[0]] + rest[0] + "/" + Join(rest[1..]) == [s[0]] + (rest[0] + "/" + Join(rest[1..]));
      }
    }
  }

  ghost predicate Segments(parts: seq<string>) {
    parts != [] && forall i :: 0 <= i < |parts| ==> '/' !in parts[i]
  }

  lemma {:induction false} SplitFirst(a: string, b: string)
    requires '/' !in a
    ensures Split(a) == [a] && Split(a + "/" + b) == [a] + Split(b)
  {
    var s := a + "/" + b;
    if a == [] {
      assert s == "/" + b && s[1..] == b;
    } else {
      assert s[1..] == a[1..] + "/" + b;
      SplitFirst(a[1..], b);
      HeadTail(a);
      assert Split(s[1..])[1..] == Split(b);
    }
  }

  lemma {:induction false} JoinSplit(parts: seq<string>)
    requires Segments(parts)
    ensures Split(Join(parts)) == parts
  {
    if |parts| == 1 {
      SplitFirst(parts[0], []);
    } else {
      JoinSplit(parts[1..]);
      SplitFirst(parts[0], Join(parts[1..]));
      HeadTail(parts);
    }
  }

  /** A reference to a place, with a last segment that stands for `name`. */
  ghost predicate PointsTo(ref: Json, place: seq<string>, segment: string, name: string) {
    place in {["components", "schemas"], ["definitions"], ["schemas"]} && '/' !in segment && ref == Text("#/" + Join(place + [segment])) && Decode(segment) == name
  }

  lemma {:induction false} ResolvesTo(place: seq<string>, segment: string, names: set<string>)
    requires place in {["components", "schemas"], ["definitions"], ["schemas"]} && '/' !in segment
    ensures Resolve(Text("#/" + Join(place + [segment])), names) == if Decode(segment) in names then Some(Decode(segment)) else None
  {
    hide Decode, Split, Join;
    var parts := place + [segment];
    PlaceSegments(place);
    JoinSplit(parts);
    var text := "#/" + Join(parts);
    assert text[..2] == "#/" && text[2..] == Join(parts);
    assert parts[..|parts| - 1] == place;
  }

  lemma {:induction false} PlaceSegments(place: seq<string>)
    requires IsPlace(place)
    ensures Segments(place)
  {
  }

  lemma {:induction false} ResolvedPoints(ref: Json, names: set<string>) returns (place: seq<string>, segment: string)
    requires Resolve(ref, names).Some?
    ensures PointsTo(ref, place, segment, Resolve(ref, names).value)
  {
    hide Decode, Split, Join;
    var tail := ref.text[2..];
    var parts := Split(tail);
    SplitJoin(tail);
    place, segment := parts[..|parts| - 1], parts[|parts| - 1];
    assert place + [segment] == parts;
    assert ref.text == ref.text[..2] + tail;
  }

  /**
   A reference resolves to a name exactly if it is `#/` with the segments of one of the three
   places and one more that decodes to the name, and there is such a schema.
   */
  lemma {:induction false} ResolveExact(ref: Json, names: set<string>, name: string)
    ensures Resolve(ref, names) == Some(name)
       <==> name in names && exists place, segment :: PointsTo(ref, place, segment, name)
  {
    hide Decode, Resolve, Join;
    if Resolve(ref, names) == Some(name) {
      var place, segment := ResolvedPoints(ref, names);
    } else if place, segment :| PointsTo(ref, place, segment, name) {
      ResolvesTo(place, segment, names);
    }
  }

  /** A name as a segment of a reference: `~0` for a tilde and `~1` for a slash. */
  function Encode(name: string): string {
    if name == [] then []
    else (match name[0] case '~' => "~0" case '/' => "~1" case c => [c]) + Encode(name[1..])
  }

  /** Tildes encoded, slashes not. */
  function HalfEncoded(name: string): string {
    if name == [] then [] else (if name[0] == '~' then "~0" else [name[0]]) + HalfEncoded(name[1..])
  }

  lemma {:induction false} DecodeSlashes(name: string)
    ensures Unescape(Encode(name), '1', '/') == HalfEncoded(name) && '/' !in Encode(name)
  {
    if name != [] {
      DecodeSlashes(name[1..]);
      var s, e := Encode(name), Encode(name[1..]);
      if name[0] == '~' {
        assert s[1..] == "0" + e && s[1..][1..] == e;
      } else if name[0] == '/' {
        assert s[2..] == e;
      } else {
        assert s[1..] == e;
      }
    }
  }

  lemma {:induction false} DecodeTildes(name: string)
    ensures Unescape(HalfEncoded(name), '0', '~') == name
  {
    if name != [] {
      DecodeTildes(name[1..]);
      var s, h := HalfEncoded(name), HalfEncoded(name[1..]);
      HeadTail(name);
      if name[0] == '~' {
        assert s[2..] == h;
      } else {
        assert s[1..] == h;
      }
    }
  }

  /** Every schema can be referred to, whatever its name: decoding undoes encoding (section 4 of RFC 6901). */
  lemma {:induction false} ResolveEncoded(place: seq<string>, name: string, names: set<string>)
    requires place in {["components", "schemas"], ["definitions"], ["schemas"]} && name in names
    ensures Resolve(Text("#/" + Join(place + [Encode(name)])), names) == Some(name)
  {
    hide Resolve, Join;
    DecodeSlashes(name);
    DecodeTildes(name);
    ResolvesTo(place, Encode(name), names);
  }

  // ----- Collecting the references of a schema -----

  function Both(a: Option<set<string>>, b: Option<set<string>>): Option<set<string>> {
    if a.Some? && b.Some? then Some(a.value + b.value) else None
  }

  /** `_schema_refs` */
  function SchemaRefs(v: Json, names: set<string>): Option<set<string>>
    decreases v
  {
    match v
    case Object(fields) => FieldRefs(fields, names)
    case Array(items) => ItemRefs(items, names)
    case _ => Some({})
  }

  function FieldRefs(fields: seq<Field>, names: set<string>): Option<set<string>>
    decreases fields
  {
    if fields == [] then Some({})
    else
      var f := fields[0];
      var own := if f.key != "$ref" then Some({})
                 else match Resolve(f.value, names) case Some(t) => Some({t}) case None => None;
      Both(Both(own, SchemaRefs(f.value, names)), FieldRefs(fields[1..], names))
  }

  function ItemRefs(items: seq<Json>, names: set<string>): Option<set<string>>
    decreases items
  {
    if items == [] then Some({}) else Both(SchemaRefs(items[0], names), ItemRefs(items[1..], names))
  }

  /** `ref` is the value of a `$ref` field somewhere in `v`. */
  ghost predicate RefIn(ref: Json, v: Json)
    decreases v
  {
    match v
    case Object(fields) => RefInFields(ref, fields)
    case Array(items) => RefInItems(ref, items)
    case _ => false
  }

  ghost predicate RefInFields(ref: Json, fields: seq<Field>)
    decreases fields
  {
    fields != [] && (fields[0] == Field("$ref", ref) || RefIn(ref, fields[0].value) || RefInFields(ref, fields[1..]))
  }

  ghost predicate RefInItems(ref: Json, items: seq<Json>)
    decreases items
  {
    items != [] && (RefIn(ref, items[0]) || RefInItems(ref, items[1..]))
  }

  /** Collection fails exactly when some reference does not resolve, and finds exactly their targets. */
  ghost predicate Exact(r: Option<set<string>>, names: set<string>, occurs: Json -> bool) {
    && (r.Some? <==> forall ref :: occurs(ref) ==> Resolve(ref, names).Some?)
    && (r.Some? ==> forall t :: t in r.value <==> exists ref :: occurs(ref) && Resolve(ref, names) == Some(t))
  }

  lemma {:induction false} RefsExact(v: Json, names: set<string>)
    ensures Exact(SchemaRefs(v, names), names, ref => RefIn(ref, v))
    decreases v
  {
    hide Resolve;
    match v
    case Object(fields) => FieldRefsExact(fields, names);
    case Array(items) => ItemRefsExact(items, names);
    case _ =>
  }

  lemma {:induction false} BothExact(a: Option<set<string>>, b: Option<set<string>>, names: set<string>,
                  p: Json -> bool, q: Json -> bool, both: Json -> bool)
    requires Exact(a, names, p) && Exact(b, names, q)
    requires forall ref :: both(ref) <==> p(ref) || q(ref)
    ensures Exact(Both(a, b), names, both)
  {
    hide Resolve;
  }

  lemma {:induction false} FieldRefsExact(fields: seq<Field>, names: set<string>)
    ensures Exact(FieldRefs(fields, names), names, ref => RefInFields(ref, fields))
    decreases fields
  {
    hide Resolve;
    if fields != [] {
      var f, rest := fields[0], fields[1..];
      RefsExact(f.value, names);
      FieldRefsExact(rest, names);
      var own := if f.key != "$ref" then Some({})
                 else match Resolve(f.value, names) case Some(t) => Some({t}) case None => None;
      var isOwn := ref => f == Field("$ref", ref);
      assert Exact(own, names, isOwn) by {
        assert f.key == "$ref" ==> isOwn(f.value);
      }
      var inOwn := ref => f == Field("$ref", ref) || RefIn(ref, f.value);
      BothExact(own, SchemaRefs(f.value, names), names, isOwn, ref => RefIn(ref, f.value), inOwn);
      BothExact(Both(own, SchemaRefs(f.value, names)), FieldRefs(rest, names), names,
                inOwn, ref => RefInFields(ref, rest), ref => RefInFields(ref, fields));
    }
  }

  lemma {:induction false} ItemRefsExact(items: seq<Json>, names: set<string>)
    ensures Exact(ItemRefs(items, names), names, ref => RefInItems(ref, items))
    decreases items
  {
    hide Resolve;
    if items != [] {
      var v, rest := items[0], items[1..];
      RefsExact(v, names);
      ItemRefsExact(rest, names);
      BothExact(SchemaRefs(v, names), ItemRefs(rest, names), names,
                ref => RefIn(ref, v), ref => RefInItems(ref, rest), ref => RefInItems(ref, items));
    }
  }

  // ----- The whole check -----

  /** `a` refers to `b`: some `$ref` inside `a` resolves to `b`. */
  ghost predicate Refers(schemas: map<string, Json>, a: string, b: string) {
    a in schemas && exists ref :: RefIn(ref, schemas[a]) && Resolve(ref, schemas.Keys) == Some(b)
  }

  /** A chain of at least one reference from a schema back to itself. */
  ghost predicate Recursive(schemas: map<string, Json>, p: seq<string>) {
    |p| >= 2 && p[0] == p[|p| - 1] && forall i :: 0 < i < |p| ==> Refers(schemas, p[i - 1], p[i])
  }

  ghost predicate Acceptable(schemas: map<string, Json>) {
    && (forall n :: n in schemas ==> schemas[n].Object?)
    && (forall n, ref :: n in schemas && RefIn(ref, schemas[n]) ==> Resolve(ref, schemas.Keys).Some?)
    && !exists p :: Recursive(schemas, p)
  }

  lemma {:induction false} GraphIsReferences(schemas: map<string, Json>, g: Graph)
    requires g.Keys == schemas.Keys
    requires forall n :: n in schemas ==> SchemaRefs(schemas[n], schemas.Keys) == Some(g[n])
    ensures Resolved(g)
    ensures forall n, ref :: n in schemas && RefIn(ref, schemas[n]) ==> Resolve(ref, schemas.Keys).Some?
    ensures Acyclic(g) <==> !exists p :: Recursive(schemas, p)
  {
    hide Resolve, SchemaRefs, RefIn;
    forall n | n in schemas
      ensures forall t :: t in g[n] <==> Refers(schemas, n, t)
      ensures forall ref :: RefIn(ref, schemas[n]) ==> Resolve(ref, schemas.Keys).Some?
    {
      RefsExact(schemas[n], schemas.Keys);
      assert forall ref :: (ref => RefIn(ref, schemas[n]))(ref) <==> RefIn(ref, schemas[n]);
    }
    forall p ensures Cycle(g, p) <==> Recursive(schemas, p) {
      CycleIsRecursive(schemas, g, p);
    }
  }

  lemma {:induction false} CycleIsRecursive(schemas: map<string, Json>, g: Graph, p: seq<string>)
    requires g.Keys == schemas.Keys
    requires forall n :: n in g ==> forall t :: t in g[n] <==> Refers(schemas, n, t)
    ensures Cycle(g, p) <==> Recursive(schemas, p)
  {
    hide Resolve, RefIn;
    if Recursive(schemas, p) {
      assert p[0] in g by { assert Refers(schemas, p[1 - 1], p[1]); }
      forall i | 0 < i < |p| ensures p[i] in g {
        assert Refers(schemas, p[i - 1], p[i]);
      }
      forall i | 0 < i < |p| ensures p[i] in g[p[i - 1]] {
        assert Refers(schemas, p[i - 1], p[i]);
      }
    }
  }

  /** `_validate_schema_graph`: accepts exactly the acceptable schema sets, and always ends. */
  method ValidateSchemas(schemas: map<string, Json>) returns (ok: bool)
    ensures ok <==> Acceptable(schemas)
  {
    hide Resolve, SchemaRefs, RefIn, Recursive;
    if exists n :: n in schemas && !schemas[n].Object? {
      return false;
    }
    var graph: Graph := map[];
    var names := schemas.Keys;
    while names != {}
      invariant names <= schemas.Keys && graph.Keys == schemas.Keys - names
      invariant forall n :: n in graph ==> SchemaRefs(schemas[n], schemas.Keys) == Some(graph[n])
      decreases names
    {
      var name :| name in names;
      names := names - {name};
      var refs := SchemaRefs(schemas[name], schemas.Keys);
      if refs == None {
        RefsExact(schemas[name], schemas.Keys);
        return false;
      }
      graph := graph[name := refs.value];
    }
    GraphIsReferences(schemas, graph);
    ok := CheckGraph(graph);
  }
}
