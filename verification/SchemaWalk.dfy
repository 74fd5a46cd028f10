/**
  The walk over a tool's input schema that collects `x-mcp-header` annotations and
  rejects schemas with an annotation outside a property reached only through `properties`.
 */
module SchemaWalk {
  import opened Common
  import opened Json
  import opened HttpHeaders

  const ANNOTATION := "x-mcp-header"
  const PROPERTIES := "properties"

  type Path = seq<string>

  datatype ParameterType = BooleanType | IntegerType | StringType

  datatype Annotation = Annotation(headerName: string, parameterType: ParameterType, path: Path)

  datatype WalkError = Unreachable | NotAString | EmptyName | NotAToken | Duplicate | UnsupportedType | InvalidName

  // ----- What a valid annotation is -----

  function DeclaredType(schema: JsonObject): Option<ParameterType> {
    match Get(schema, "type")
    case Some(String(s)) =>
      if s == "boolean" then Some(BooleanType)
      else if s == "integer" then Some(IntegerType)
      else if s == "string" then Some(StringType)
      else None
    case _ => None
  }

  predicate ValidAnnotation(schema: JsonObject) {
    && Get(schema, ANNOTATION).Some? && Get(schema, ANNOTATION).value.String?
    && IsToken(Get(schema, ANNOTATION).value.s)
    && |PARAM_PREFIX + Get(schema, ANNOTATION).value.s| <= MAX_HEADER_NAME_LEN
    && DeclaredType(schema).Some?
  }

  /** The annotated name, ignoring case. */
  function NameOf(schema: JsonObject): string
    requires ValidAnnotation(schema)
  {
    ToLower(Get(schema, ANNOTATION).value.s)
  }

  function AnnotationOf(schema: JsonObject, path: Path): Annotation
    requires ValidAnnotation(schema)
  {
    Annotation(ToLower(PARAM_PREFIX + Get(schema, ANNOTATION).value.s), DeclaredType(schema).value, path)
  }

  // ----- What the walk does, as functions -----

  /** No object at or below `value` carries the annotation key. */
  predicate Clean(value: Json) {
    match value
    case Object(entries) => !HasKey(entries, ANNOTATION) && forall i | 0 <= i < |entries| :: Clean(entries[i].1)
    case Array(items) => forall i | 0 <= i < |items| :: Clean(items[i])
    case _ => true
  }

  predicate Placed(schema: JsonObject, isRoot: bool)
    decreases Object(schema), 0
  {
    && (isRoot ==> !HasKey(schema, ANNOTATION))
    && forall i | 0 <= i < |schema| :: KeywordPlaced(schema[i].0, schema[i].1)
  }

  predicate KeywordPlaced(keyword: string, value: Json)
    decreases value, 0
  {
    if keyword == PROPERTIES && value.Object? then
      forall i | 0 <= i < |value.entries| :: PropertyPlaced(value.entries[i].1)
    else if keyword == ANNOTATION then value.String?
    else Clean(value)
  }

  predicate PropertyPlaced(value: Json)
    decreases value, 1
  {
    if value.Object? then Placed(value.entries, false) else Clean(value)
  }

  predicate KeywordsPlaced(schema: JsonObject, n: nat)
    requires n <= |schema|
  {
    forall i | 0 <= i < n :: KeywordPlaced(schema[i].0, schema[i].1)
  }

  predicate PropertiesPlaced(properties: JsonObject, n: nat)
    requires n <= |properties|
  {
    forall i | 0 <= i < n :: PropertyPlaced(properties[i].1)
  }

  datatype Found = Found(path: Path, schema: JsonObject)

  function Base(path: Option<Path>): Path { if path.Some? then path.value else [] }

  /** The annotated schemas reached through `properties`, in the order of the walk. */
  function FoundIn(schema: JsonObject, path: Option<Path>): seq<Found>
    decreases Object(schema), 2, 0
  {
    SelfFound(schema, path) + FoundInEntries(schema, |schema|, path)
  }

  function FoundInEntries(schema: JsonObject, n: nat, path: Option<Path>): seq<Found>
    requires n <= |schema|
    decreases Object(schema), 1, n
  {
    if n == 0 then []
    else FoundInEntries(schema, n - 1, path) + FoundInKeyword(schema[n - 1].0, schema[n - 1].1, path)
  }

  function FoundInKeyword(keyword: string, value: Json, path: Option<Path>): seq<Found>
    decreases value, 2, 0
  {
    if keyword == PROPERTIES && value.Object? then FoundInProperties(value.entries, |value.entries|, Base(path)) else []
  }

  function FoundInProperties(properties: JsonObject, n: nat, path: Path): seq<Found>
    requires n <= |properties|
    decreases Object(properties), 1, n
  {
    if n == 0 then []
    else FoundInProperties(properties, n - 1, path) + FoundInProperty(properties[n - 1].0, properties[n - 1].1, path)
  }

  function FoundInProperty(name: string, value: Json, path: Path): seq<Found>
    decreases value, 3, 0
  {
    if value.Object? then FoundIn(value.entries, Some(path + [name])) else []
  }

  /** The two collections that the walk mutates. */
  datatype Registry = Registry(seen: set<string>, annotations: seq<Annotation>)

  /** Registering one annotation fails when it is invalid or its name was seen. */
  function RegisterOne(registry: Registry, found: Found): Option<Registry> {
    if !ValidAnnotation(found.schema) || NameOf(found.schema) in registry.seen then None
    else Some(Registry(registry.seen + {NameOf(found.schema)},
                       registry.annotations + [AnnotationOf(found.schema, found.path)]))
  }

  function Register(registry: Registry, found: seq<Found>): Option<Registry> {
    if found == [] then Some(registry)
    else
      match Register(registry, found[..|found| - 1])
      case None => None
      case Some(next) => RegisterOne(next, found[|found| - 1])
  }

  lemma {:induction false} RegisterConcat(registry: Registry, a: seq<Found>, b: seq<Found>)
    ensures Register(registry, a + b)
            == match Register(registry, a) case None => None case Some(next) => Register(next, b)
  {
    if b == [] {
      assert a + b == a;
    } else {
      var front, last := b[..|b| - 1], b[|b| - 1];
      RegisterConcat(registry, a, front);
      assert (a + b)[..|a + b| - 1] == a + front;
      assert (a + b)[|a + b| - 1] == last;
    }
  }

  lemma RegisterSingle(registry: Registry, found: Found)
    ensures Register(registry, [found]) == RegisterOne(registry, found)
  {
    assert [found][..0] == [];
  }

  predicate AllValid(found: seq<Found>) { forall i | 0 <= i < |found| :: ValidAnnotation(found[i].schema) }

  predicate DistinctNames(found: seq<Found>)
    requires AllValid(found)
  {
    forall i, j | 0 <= i < j < |found| :: NameOf(found[i].schema) != NameOf(found[j].schema)
  }

  function AnnotationsOf(found: seq<Found>): (r: seq<Annotation>)
    requires AllValid(found)
    ensures |r| == |found|
  {
    seq(|found|, i requires 0 <= i < |found| => AnnotationOf(found[i].schema, found[i].path))
  }

  function NameSet(found: seq<Found>): set<string>
    requires AllValid(found)
  {
    set i | 0 <= i < |found| :: NameOf(found[i].schema)
  }

  lemma NameSetSnoc(front: seq<Found>, last: Found)
    requires AllValid(front) && ValidAnnotation(last.schema)
    ensures AllValid(front + [last])
    ensures NameSet(front + [last]) == NameSet(front) + {NameOf(last.schema)}
    ensures DistinctNames(front + [last]) <==> DistinctNames(front) && NameOf(last.schema) !in NameSet(front)
  {
    var found := front + [last];
    assert forall i | 0 <= i < |front| :: found[i] == front[i];
    assert found[|front|] == last;
    if DistinctNames(found) {
      forall i, j | 0 <= i < j < |front| ensures NameOf(front[i].schema) != NameOf(front[j].schema) {
        assert NameOf(found[i].schema) != NameOf(found[j].schema);
      }
      forall i | 0 <= i < |front| ensures NameOf(front[i].schema) != NameOf(last.schema) {
        assert NameOf(found[i].schema) != NameOf(found[|front|].schema);
      }
    }
  }

  lemma AnnotationsSnoc(front: seq<Found>, last: Found)
    requires AllValid(front) && ValidAnnotation(last.schema) && AllValid(front + [last])
    ensures AnnotationsOf(front + [last]) == AnnotationsOf(front) + [AnnotationOf(last.schema, last.path)]
  {
  }

  const EMPTY := Registry({}, [])

  lemma {:induction false} RegisterSound(found: seq<Found>)
    requires Register(EMPTY, found).Some?
    ensures AllValid(found) && DistinctNames(found)
    ensures Register(EMPTY, found).value == Registry(NameSet(found), AnnotationsOf(found))
  {
    if found != [] {
      var front, last := found[..|found| - 1], found[|found| - 1];
      RegisterSound(front);
      assert found == front + [last];
      NameSetSnoc(front, last);
      AnnotationsSnoc(front, last);
    }
  }

  lemma {:induction false} RegisterComplete(found: seq<Found>)
    requires AllValid(found) && DistinctNames(found)
    ensures Register(EMPTY, found).Some?
  {
    if found != [] {
      var front, last := found[..|found| - 1], found[|found| - 1];
      assert found == front + [last];
      NameSetSnoc(front, last);
      RegisterComplete(front);
      RegisterSound(front);
    }
  }

  // ----- The walk -----

  method RejectUnreachableAnnotations(value: Json) returns (r: Result<(), WalkError>)
    ensures r.Ok? <==> Clean(value)
    ensures r.Err? ==> r.error == Unreachable
    decreases value
  {
    r := Ok(());
    match value
    case Object(entries) =>
      if HasKey(entries, ANNOTATION) {
        return Err(Unreachable);
      }
      for i := 0 to |entries|
        invariant r.Ok?
        invariant forall k | 0 <= k < i :: Clean(entries[k].1)
      {
        r := RejectUnreachableAnnotations(entries[i].1);
        if r.Err? {
          return;
        }
      }
    case Array(items) =>
      for i := 0 to |items|
        invariant r.Ok?
        invariant forall k | 0 <= k < i :: Clean(items[k])
      {
        r := RejectUnreachableAnnotations(items[i]);
        if r.Err? {
          return;
        }
      }
    case _ =>
  }

  function SelfFound(schema: JsonObject, path: Option<Path>): seq<Found> {
    if path.Some? && HasKey(schema, ANNOTATION) then [Found(path.value, schema)] else []
  }

  class SchemaVisitor {
    var seenHeaders: set<string>
    var annotations: seq<Annotation>

    ghost function Contents(): Registry
      reads this
    {
      Registry(seenHeaders, annotations)
    }

    constructor ()
      ensures seenHeaders == {} && annotations == []
    {
      seenHeaders, annotations := {}, [];
    }

    method VisitAnnotation(schema: JsonObject, rawHeader: Json, path: Option<Path>) returns (r: Result<(), WalkError>)
      requires Get(schema, ANNOTATION) == Some(rawHeader)
      modifies this
      ensures r.Ok? ==> path.Some? && rawHeader.String?
      ensures r.Ok? ==> RegisterOne(old(Contents()), Found(path.value, schema)) == Some(Contents())
      ensures r.Err? ==> path.None? || RegisterOne(old(Contents()), Found(path.value, schema)).None?
      ensures r == Err(Unreachable) <==> path.None?
      ensures r == Err(NotAString) <==> path.Some? && !rawHeader.String?
      ensures path.Some? && rawHeader.String? ==>
                var name := rawHeader.s;
                && (r == Err(EmptyName) <==> name == "")
                && (r == Err(NotAToken) <==> name != "" && !IsToken(name))
                && (r == Err(Duplicate) <==> IsToken(name) && ToLower(name) in old(seenHeaders))
                && (IsToken(name) && ToLower(name) !in old(seenHeaders) ==>
                      && (r == Err(UnsupportedType) <==> DeclaredType(schema) == None)
                      && (r == Err(InvalidName)
                          <==> DeclaredType(schema).Some? && |PARAM_PREFIX + name| > MAX_HEADER_NAME_LEN))
    {
      if path.None? {
        return Err(Unreachable);
      }
      if !rawHeader.String? {
        return Err(NotAString);
      }
      var header := rawHeader.s;
      if header == "" {
        return Err(EmptyName);
      }
      if exists i | 0 <= i < |header| :: !IsTchar(header[i]) {
        return Err(NotAToken);
      }
      if ToLower(header) in seenHeaders {
        return Err(Duplicate);
      }
      seenHeaders := seenHeaders + {ToLower(header)};
      var parameterType := DeclaredType(schema);
      if parameterType.None? {
        return Err(UnsupportedType);
      }
      PrefixIsToken(header);
      var headerName := HeaderNameFromBytes(PARAM_PREFIX + header);
      if headerName.None? {
        return Err(InvalidName);
      }
      annotations := annotations + [Annotation(headerName.value, parameterType.value, path.value)];
      r := Ok(());
    }

    method VisitSchema(schema: JsonObject, path: Option<Path>) returns (r: Result<(), WalkError>)
      requires UniqueKeys(Object(schema))
      modifies this
      ensures r.Ok? ==> Placed(schema, path.None?)
      ensures r.Ok? ==> Register(old(Contents()), FoundIn(schema, path)) == Some(Contents())
      ensures r.Err? ==> !Placed(schema, path.None?) || Register(old(Contents()), FoundIn(schema, path)).None?
      decreases Object(schema), 1
    {
      ghost var start := Contents();
      var rawHeader := Get(schema, ANNOTATION);
      if rawHeader.Some? {
        r := VisitAnnotation(schema, rawHeader.value, path);
        if r.Err? {
          if path.Some? {
            SelfFails(start, schema, path.value);
          }
          return;
        }
        RegisterSingle(start, Found(path.value, schema));
      }
      SelfThenEntries(start, Contents(), schema, path);
      r := VisitKeywords(schema, path);
    }

    /** The loop over the keywords of a schema. */
    method VisitKeywords(schema: JsonObject, path: Option<Path>) returns (r: Result<(), WalkError>)
      requires UniqueKeys(Object(schema))
      requires Get(schema, ANNOTATION).Some? ==> Get(schema, ANNOTATION).value.String?
      modifies this
      ensures r.Ok? ==> KeywordsPlaced(schema, |schema|)
      ensures r.Ok? ==> Register(old(Contents()), FoundInEntries(schema, |schema|, path)) == Some(Contents())
      ensures r.Err? ==> !KeywordsPlaced(schema, |schema|)
                         || Register(old(Contents()), FoundInEntries(schema, |schema|, path)).None?
      decreases Object(schema), 0
    {
      ghost var start := Contents();
      for i := 0 to |schema|
        invariant KeywordsPlaced(schema, i)
        invariant Register(start, FoundInEntries(schema, i, path)) == Some(Contents())
      {
        GetUnique(schema, i);
        EntriesSnoc(start, schema, i, path);
        r := VisitKeyword(schema[i].0, schema[i].1, path);
        if r.Err? {
          if KeywordPlaced(schema[i].0, schema[i].1) {
            EntriesFail(start, schema, i + 1, |schema|, path);
          }
          return;
        }
      }
      r := Ok(());
    }

    /** One turn of the loop over the keywords of a schema. */
    method VisitKeyword(keyword: string, value: Json, path: Option<Path>) returns (r: Result<(), WalkError>)
      requires UniqueKeys(value)
      modifies this
      ensures r.Ok? ==> keyword != ANNOTATION ==> KeywordPlaced(keyword, value)
      ensures r.Ok? ==> Register(old(Contents()), FoundInKeyword(keyword, value, path)) == Some(Contents())
      ensures r.Err? ==> !KeywordPlaced(keyword, value)
                         || Register(old(Contents()), FoundInKeyword(keyword, value, path)).None?
      decreases value, 1
    {
      r := Ok(());
      if keyword == PROPERTIES && value.Object? {
        r := VisitProperties(value.entries, Base(path));
      } else if keyword != ANNOTATION {
        r := RejectUnreachableAnnotations(value);
      }
    }

    /** The loop over the members of a `properties` object. */
    method VisitProperties(properties: JsonObject, path: Path) returns (r: Result<(), WalkError>)
      requires UniqueKeys(Object(properties))
      modifies this
      ensures r.Ok? ==> PropertiesPlaced(properties, |properties|)
      ensures r.Ok? ==> Register(old(Contents()), FoundInProperties(properties, |properties|, path)) == Some(Contents())
      ensures r.Err? ==> !PropertiesPlaced(properties, |properties|)
                         || Register(old(Contents()), FoundInProperties(properties, |properties|, path)).None?
      decreases Object(properties), 0
    {
      ghost var start := Contents();
      for i := 0 to |properties|
        invariant PropertiesPlaced(properties, i)
        invariant Register(start, FoundInProperties(properties, i, path)) == Some(Contents())
      {
        GetUnique(properties, i);
        PropertiesSnoc(start, properties, i, path);
        r := VisitProperty(properties[i].0, properties[i].1, path);
        if r.Err? {
          if PropertyPlaced(properties[i].1) {
            PropertiesFail(start, properties, i + 1, |properties|, path);
          }
          return;
        }
      }
      r := Ok(());
    }

    /** One turn of the loop over the members of a `properties` object. */
    method VisitProperty(name: string, value: Json, path: Path) returns (r: Result<(), WalkError>)
      requires UniqueKeys(value)
      modifies this
      ensures r.Ok? ==> PropertyPlaced(value)
      ensures r.Ok? ==> Register(old(Contents()), FoundInProperty(name, value, path)) == Some(Contents())
      ensures r.Err? ==> !PropertyPlaced(value) || Register(old(Contents()), FoundInProperty(name, value, path)).None?
      decreases value, 2
    {
      if value.Object? {
        r := VisitSchema(value.entries, Some(path + [name]));
      } else {
        r := RejectUnreachableAnnotations(value);
      }
    }
  }

  lemma SelfFails(start: Registry, schema: JsonObject, path: Path)
    requires Get(schema, ANNOTATION).Some? && RegisterOne(start, Found(path, schema)).None?
    ensures Register(start, FoundIn(schema, Some(path))).None?
  {
    RegisterSingle(start, Found(path, schema));
    RegisterConcat(start, SelfFound(schema, Some(path)), FoundInEntries(schema, |schema|, Some(path)));
  }

  lemma SelfThenEntries(start: Registry, afterSelf: Registry, schema: JsonObject, path: Option<Path>)
    requires Register(start, SelfFound(schema, path)) == Some(afterSelf)
    ensures Register(start, FoundIn(schema, path)) == Register(afterSelf, FoundInEntries(schema, |schema|, path))
  {
    RegisterConcat(start, SelfFound(schema, path), FoundInEntries(schema, |schema|, path));
  }

  lemma EntriesSnoc(start: Registry, schema: JsonObject, n: nat, path: Option<Path>)
    requires n < |schema| && Register(start, FoundInEntries(schema, n, path)).Some?
    ensures Register(start, FoundInEntries(schema, n + 1, path))
            == Register(Register(start, FoundInEntries(schema, n, path)).value,
                        FoundInKeyword(schema[n].0, schema[n].1, path))
  {
    RegisterConcat(start, FoundInEntries(schema, n, path), FoundInKeyword(schema[n].0, schema[n].1, path));
  }

  lemma PropertiesSnoc(start: Registry, properties: JsonObject, n: nat, path: Path)
    requires n < |properties| && Register(start, FoundInProperties(properties, n, path)).Some?
    ensures Register(start, FoundInProperties(properties, n + 1, path))
            == Register(Register(start, FoundInProperties(properties, n, path)).value,
                        FoundInProperty(properties[n].0, properties[n].1, path))
  {
    RegisterConcat(start, FoundInProperties(properties, n, path),
                   FoundInProperty(properties[n].0, properties[n].1, path));
  }

  lemma {:induction false} EntriesFail(start: Registry, schema: JsonObject, n: nat, m: nat, path: Option<Path>)
    requires n <= m <= |schema| && Register(start, FoundInEntries(schema, n, path)).None?
    ensures Register(start, FoundInEntries(schema, m, path)).None?
  {
    if n < m {
      EntriesFail(start, schema, n, m - 1, path);
      RegisterConcat(start, FoundInEntries(schema, m - 1, path),
                     FoundInKeyword(schema[m - 1].0, schema[m - 1].1, path));
    }
  }

  lemma {:induction false} PropertiesFail(start: Registry, properties: JsonObject, n: nat, m: nat, path: Path)
    requires n <= m <= |properties| && Register(start, FoundInProperties(properties, n, path)).None?
    ensures Register(start, FoundInProperties(properties, m, path)).None?
  {
    if n < m {
      PropertiesFail(start, properties, n, m - 1, path);
      RegisterConcat(start, FoundInProperties(properties, m - 1, path),
                     FoundInProperty(properties[m - 1].0, properties[m - 1].1, path));
    }
  }

  lemma PrefixIsToken(header: string)
    ensures IsToken(header) ==> IsToken(PARAM_PREFIX + header)
  {
  }

  // ----- Statically reachable annotations, by location -----

  /** Every second step, from the first on, is the keyword `properties`; the others are property names. */
  predicate Alternating(location: seq<Step>) {
    forall i | 0 <= i < |location| :: location[i].Key? && (i % 2 == 0 ==> location[i].key == PROPERTIES)
  }

  /** The root schema, or a property schema reached only through `properties`. */
  predicate IsSchemaLocation(location: seq<Step>) { Alternating(location) && |location| % 2 == 0 }

  /** The keys of the object at such a location are property names, not keywords. */
  predicate IsPropertiesLocation(location: seq<Step>) { Alternating(location) && |location| % 2 == 1 }

  function PropertyPath(location: seq<Step>): Path
    requires IsSchemaLocation(location)
  {
    seq(|location| / 2, i requires 0 <= i < |location| / 2 => location[2 * i + 1].key)
  }

  predicate Carries(value: Option<Json>) {
    value.Some? && value.value.Object? && HasKey(value.value.entries, ANNOTATION)
  }

  /** The object at `location` carries the key as an annotation. */
  predicate IsAnnotation(schema: JsonObject, location: seq<Step>) {
    Carries(At(Object(schema), location)) && !IsPropertiesLocation(location)
  }

  /** The walk's placement rule for one annotation. */
  predicate WellPlaced(schema: JsonObject, isRoot: bool, location: seq<Step>) {
    IsAnnotation(schema, location) ==>
      && IsSchemaLocation(location) && (isRoot ==> location != [])
      && Get(At(Object(schema), location).value.entries, ANNOTATION).value.String?
  }

  lemma {:induction false} CleanBelow(value: Json, location: seq<Step>)
    requires Clean(value)
    ensures !Carries(At(value, location))
    decreases |location|
  {
    if location != [] && At(value, location).Some? {
      match (value, location[0])
      case (Object(entries), Key(key)) =>
        var i :| 0 <= i < |entries| && entries[i] == (key, Get(entries, key).value);
        CleanBelow(Get(entries, key).value, location[1..]);
      case (Array(items), Index(i)) => CleanBelow(items[i], location[1..]);
    }
  }

  lemma {:induction false} UncleanHasLocation(value: Json) returns (location: seq<Step>)
    requires UniqueKeys(value) && !Clean(value)
    ensures Carries(At(value, location))
    decreases value
  {
    location := [];
    match value
    case Object(entries) =>
      if !HasKey(entries, ANNOTATION) {
        var i :| 0 <= i < |entries| && !Clean(entries[i].1);
        var rest := UncleanHasLocation(entries[i].1);
        GetUnique(entries, i);
        location := [Key(entries[i].0)] + rest;
      }
    case Array(items) =>
      var i :| 0 <= i < |items| && !Clean(items[i]);
      var rest := UncleanHasLocation(items[i]);
      location := [Index(i)] + rest;
  }

  /** Two steps, `properties` and a name, lead from a schema to a property. */
  lemma DescendTwo(location: seq<Step>)
    requires |location| >= 2 && location[0] == Key(PROPERTIES) && location[1].Key?
    ensures Alternating(location) <==> Alternating(location[2..])
    ensures IsSchemaLocation(location) <==> IsSchemaLocation(location[2..])
    ensures IsPropertiesLocation(location) <==> IsPropertiesLocation(location[2..])
    ensures IsSchemaLocation(location) ==>
              PropertyPath(location) == [location[1].key] + PropertyPath(location[2..])
  {
    var rest := location[2..];
    assert forall i | 0 <= i < |rest| :: rest[i] == location[i + 2];
    if Alternating(rest) {
      forall i | 0 <= i < |location|
        ensures location[i].Key? && (i % 2 == 0 ==> location[i].key == PROPERTIES)
      {
        if i >= 2 {
          assert location[i] == rest[i - 2];
        }
      }
    }
    if Alternating(location) {
      forall i | 0 <= i < |rest| ensures rest[i].Key? && (i % 2 == 0 ==> rest[i].key == PROPERTIES) {
        assert rest[i] == location[i + 2];
      }
    }
  }

  /** The value of one property, two steps below its schema. */
  function PropertyAt(schema: JsonObject, name: string): Option<Json> {
    match Get(schema, PROPERTIES)
    case Some(Object(properties)) => Get(properties, name)
    case _ => None
  }

  lemma AtProperty(schema: JsonObject, location: seq<Step>)
    requires |location| >= 2 && location[0] == Key(PROPERTIES) && location[1].Key?
    ensures At(Object(schema), location)
            == match PropertyAt(schema, location[1].key) case None => None case Some(child) => At(child, location[2..])
  {
    assert location[1..][1..] == location[2..];
    var properties := Get(schema, PROPERTIES);
    if properties.Some? {
      assert At(Object(schema), location) == At(properties.value, location[1..]);
      assert location[1..][0] == location[1];
    }
  }

  /** In a well-placed schema every annotation is where the walk collects it. */
  lemma {:induction false} PlacedSound(schema: JsonObject, isRoot: bool, location: seq<Step>)
    requires UniqueKeys(Object(schema)) && Placed(schema, isRoot)
    ensures WellPlaced(schema, isRoot, location)
    decreases |location|
  {
    if !IsAnnotation(schema, location) {
    } else if location == [] {
      var i :| 0 <= i < |schema| && schema[i].0 == ANNOTATION;
      GetUnique(schema, i);
    } else {
      var key := location[0].key;
      var i :| 0 <= i < |schema| && schema[i] == (key, Get(schema, key).value);
      var value := schema[i].1;
      if key == PROPERTIES && value.Object? {
        PlacedBelowProperties(schema, value.entries, location);
      } else if key != ANNOTATION {
        CleanBelow(value, location[1..]);
      } else {
        StringCarriesNothing(value, location[1..]);
      }
    }
  }

  lemma StringCarriesNothing(value: Json, location: seq<Step>)
    requires value.String?
    ensures !Carries(At(value, location))
  {
  }

  lemma PlacedBelowProperties(schema: JsonObject, properties: JsonObject, location: seq<Step>)
    requires UniqueKeys(Object(schema)) && Get(schema, PROPERTIES) == Some(Object(properties))
    requires KeywordPlaced(PROPERTIES, Object(properties))
    requires location != [] && location[0] == Key(PROPERTIES) && IsAnnotation(schema, location)
    ensures IsSchemaLocation(location)
    ensures Get(At(Object(schema), location).value.entries, ANNOTATION).value.String?
    decreases |location|, 0
  {
    if |location| > 1 {
      assert At(Object(properties), location[1..]).Some?;
      var name := location[1].key;
      var j :| 0 <= j < |properties| && properties[j] == (name, Get(properties, name).value);
      var property := properties[j].1;
      AtProperty(schema, location);
      DescendTwo(location);
      GetKeepsUniqueKeys(schema, PROPERTIES);
      if property.Object? {
        PlacedSound(property.entries, false, location[2..]);
      } else {
        CleanBelow(property, location[2..]);
      }
    }
  }

  /** A misplaced annotation of a property, seen from the schema that has the property. */
  lemma MisplacedProperty(schema: JsonObject, isRoot: bool, name: string, rest: seq<Step>)
    requires PropertyAt(schema, name).Some?
    requires Carries(At(PropertyAt(schema, name).value, rest)) && !IsPropertiesLocation(rest)
    requires PropertyAt(schema, name).value.Object? ==>
               !WellPlaced(PropertyAt(schema, name).value.entries, false, rest)
    ensures !WellPlaced(schema, isRoot, [Key(PROPERTIES), Key(name)] + rest)
  {
    var location := [Key(PROPERTIES), Key(name)] + rest;
    assert location[2..] == rest;
    AtProperty(schema, location);
    DescendTwo(location);
    var property := PropertyAt(schema, name).value;
    if !property.Object? {
      SchemaLocationNeedsObject(property, rest);
    }
  }

  /** An unclean keyword that is not followed into properties has a misplaced annotation. */
  lemma MisplacedBelow(schema: JsonObject, isRoot: bool, i: nat) returns (location: seq<Step>)
    requires i < |schema| && UniqueKeys(Object(schema)) && Get(schema, schema[i].0) == Some(schema[i].1)
    requires schema[i].0 != ANNOTATION && !(schema[i].0 == PROPERTIES && schema[i].1.Object?)
    requires !KeywordPlaced(schema[i].0, schema[i].1)
    ensures !WellPlaced(schema, isRoot, location)
  {
    var keyword, value := schema[i].0, schema[i].1;
    var rest := UncleanHasLocation(value);
    location := [Key(keyword)] + rest;
    assert location[1..] == rest;
    if keyword == PROPERTIES {
      SchemaLocationNeedsObject(value, rest);
      assert location[1] == rest[0];
    }
  }

  /** A refused property below `properties` has a misplaced annotation. */
  lemma {:induction false} MisplacedInProperties(schema: JsonObject, isRoot: bool, properties: JsonObject)
      returns (location: seq<Step>)
    requires UniqueKeys(Object(schema)) && UniqueKeys(Object(properties))
    requires Get(schema, PROPERTIES) == Some(Object(properties)) && !KeywordPlaced(PROPERTIES, Object(properties))
    requires Object(properties) < Object(schema)
    ensures !WellPlaced(schema, isRoot, location)
    decreases Object(schema), 0
  {
    var j :| 0 <= j < |properties| && !PropertyPlaced(properties[j].1);
    GetUnique(properties, j);
    var name, property := properties[j].0, properties[j].1;
    var rest: seq<Step>;
    if property.Object? {
      rest := MisplacedHasLocation(property.entries, false);
    } else {
      rest := UncleanHasLocation(property);
      SchemaLocationNeedsObject(property, rest);
    }
    MisplacedProperty(schema, isRoot, name, rest);
    location := [Key(PROPERTIES), Key(name)] + rest;
  }

  /** A schema the walk refuses for placement has an annotation in a wrong place. */
  lemma {:induction false} MisplacedHasLocation(schema: JsonObject, isRoot: bool) returns (location: seq<Step>)
    requires UniqueKeys(Object(schema)) && !Placed(schema, isRoot)
    ensures !WellPlaced(schema, isRoot, location)
    decreases Object(schema), 1
  {
    if isRoot && HasKey(schema, ANNOTATION) {
      location := [];
    } else {
      var i :| 0 <= i < |schema| && !KeywordPlaced(schema[i].0, schema[i].1);
      GetUnique(schema, i);
      if schema[i].0 == PROPERTIES && schema[i].1.Object? {
        location := MisplacedInProperties(schema, isRoot, schema[i].1.entries);
      } else if schema[i].0 == ANNOTATION {
        location := [];
      } else {
        location := MisplacedBelow(schema, isRoot, i);
      }
    }
  }

  lemma SchemaLocationNeedsObject(value: Json, location: seq<Step>)
    requires !value.Object? && At(value, location).Some?
    ensures location == [] || (location[0].Index? && !Alternating(location))
  {
  }

  // ----- The list is exactly the annotated locations -----

  predicate FoundAt(schema: JsonObject, path: Option<Path>, location: seq<Step>, found: Found) {
    && IsSchemaLocation(location)
    && (path.Some? || location != [])
    && At(Object(schema), location) == Some(Object(found.schema))
    && HasKey(found.schema, ANNOTATION)
    && found.path == Base(path) + PropertyPath(location)
  }

  lemma {:induction false} InEntries(schema: JsonObject, n: nat, path: Option<Path>, found: Found)
    requires n <= |schema|
    ensures found in FoundInEntries(schema, n, path)
            <==> exists i | 0 <= i < n :: found in FoundInKeyword(schema[i].0, schema[i].1, path)
  {
    if n > 0 {
      InEntries(schema, n - 1, path, found);
    }
  }

  lemma {:induction false} InProperties(properties: JsonObject, n: nat, path: Path, found: Found)
    requires n <= |properties|
    ensures found in FoundInProperties(properties, n, path)
            <==> exists i | 0 <= i < n :: found in FoundInProperty(properties[i].0, properties[i].1, path)
  {
    if n > 0 {
      InProperties(properties, n - 1, path, found);
    }
  }

  /** What is collected below a schema is collected below one of its properties. */
  lemma EntriesToProperty(schema: JsonObject, path: Option<Path>, found: Found) returns (name: string)
    requires UniqueKeys(Object(schema)) && found in FoundInEntries(schema, |schema|, path)
    ensures PropertyAt(schema, name).Some?
    ensures found in FoundInProperty(name, PropertyAt(schema, name).value, Base(path))
  {
    InEntries(schema, |schema|, path, found);
    var i: nat :| i < |schema| && found in FoundInKeyword(schema[i].0, schema[i].1, path);
    var properties := schema[i].1.entries;
    GetUnique(schema, i);
    InProperties(properties, |properties|, Base(path), found);
    var j :| 0 <= j < |properties| && found in FoundInProperty(properties[j].0, properties[j].1, Base(path));
    name := properties[j].0;
    GetUnique(properties, j);
    assert Get(schema, PROPERTIES) == Some(Object(properties));
  }

  lemma PropertyToEntries(schema: JsonObject, path: Option<Path>, found: Found, name: string)
    requires PropertyAt(schema, name).Some?
    requires found in FoundInProperty(name, PropertyAt(schema, name).value, Base(path))
    ensures found in FoundInEntries(schema, |schema|, path)
  {
    var properties := Get(schema, PROPERTIES).value.entries;
    var i :| 0 <= i < |schema| && schema[i] == (PROPERTIES, Object(properties));
    var j :| 0 <= j < |properties| && properties[j] == (name, PropertyAt(schema, name).value);
    InProperties(properties, |properties|, Base(path), found);
    assert found in FoundInKeyword(schema[i].0, schema[i].1, path);
    InEntries(schema, |schema|, path, found);
  }

  lemma PropertyKeepsUniqueKeys(schema: JsonObject, name: string)
    requires UniqueKeys(Object(schema)) && PropertyAt(schema, name).Some?
    ensures UniqueKeys(PropertyAt(schema, name).value)
    ensures PropertyAt(schema, name).value < Object(schema)
  {
    GetKeepsUniqueKeys(schema, PROPERTIES);
    GetKeepsUniqueKeys(Get(schema, PROPERTIES).value.entries, name);
  }

  /** A location below a property, seen from the schema that has the property. */
  lemma FoundAtProperty(schema: JsonObject, path: Option<Path>, name: string, rest: seq<Step>, found: Found)
    requires PropertyAt(schema, name).Some? && PropertyAt(schema, name).value.Object?
    ensures FoundAt(PropertyAt(schema, name).value.entries, Some(Base(path) + [name]), rest, found)
            <==> FoundAt(schema, path, [Key(PROPERTIES), Key(name)] + rest, found)
  {
    var location := [Key(PROPERTIES), Key(name)] + rest;
    assert location[2..] == rest;
    AtProperty(schema, location);
    DescendTwo(location);
    if IsSchemaLocation(rest) {
      assert Base(path) + [name] + PropertyPath(rest) == Base(path) + ([name] + PropertyPath(rest));
    }
  }

  lemma {:induction false} FoundHasLocation(schema: JsonObject, path: Option<Path>, found: Found)
      returns (location: seq<Step>)
    requires UniqueKeys(Object(schema)) && found in FoundIn(schema, path)
    ensures FoundAt(schema, path, location, found)
    decreases Object(schema)
  {
    if found in SelfFound(schema, path) {
      location := [];
      assert Base(path) + PropertyPath(location) == Base(path);
    } else {
      var name := EntriesToProperty(schema, path, found);
      var property := PropertyAt(schema, name).value;
      PropertyKeepsUniqueKeys(schema, name);
      var rest := FoundHasLocation(property.entries, Some(Base(path) + [name]), found);
      location := [Key(PROPERTIES), Key(name)] + rest;
      FoundAtProperty(schema, path, name, rest, found);
    }
  }

  lemma {:induction false} LocationIsFound(schema: JsonObject, path: Option<Path>, location: seq<Step>, found: Found)
    requires UniqueKeys(Object(schema)) && FoundAt(schema, path, location, found)
    ensures found in FoundIn(schema, path)
    decreases |location|
  {
    if location == [] {
      assert Base(path) + PropertyPath(location) == Base(path);
      assert found == Found(path.value, schema);
    } else {
      var name, rest := location[1].key, location[2..];
      AtProperty(schema, location);
      DescendTwo(location);
      var property := PropertyAt(schema, name).value;
      PropertyKeepsUniqueKeys(schema, name);
      assert property.Object? by {
        if !property.Object? && rest != [] {
          SchemaLocationNeedsObject(property, rest);
        }
      }
      assert location == [Key(PROPERTIES), Key(name)] + rest;
      FoundAtProperty(schema, path, name, rest, found);
      LocationIsFound(property.entries, Some(Base(path) + [name]), rest, found);
      PropertyToEntries(schema, path, found, name);
    }
  }

  predicate NoDuplicates(found: seq<Found>) { forall i, j | 0 <= i < j < |found| :: found[i] != found[j] }

  lemma NoDuplicatesConcat(a: seq<Found>, b: seq<Found>)
    requires NoDuplicates(a) && NoDuplicates(b) && forall f | f in a :: f !in b
    ensures NoDuplicates(a + b)
  {
    forall i, j | 0 <= i < j < |a + b| ensures (a + b)[i] != (a + b)[j] {
      if i < |a| <= j {
        assert a[i] in a && b[j - |a|] in b;
      }
    }
  }

  lemma {:induction false} FoundOnce(schema: JsonObject, path: Option<Path>)
    requires UniqueKeys(Object(schema))
    ensures NoDuplicates(FoundIn(schema, path))
    decreases Object(schema), 2, 0
  {
    FoundOnceInEntries(schema, |schema|, path);
    forall f | f in SelfFound(schema, path) ensures f !in FoundInEntries(schema, |schema|, path) {
      InEntries(schema, |schema|, path, f);
      if i: nat :| i < |schema| && f in FoundInKeyword(schema[i].0, schema[i].1, path) {
        var properties := schema[i].1.entries;
        InProperties(properties, |properties|, Base(path), f);
        var j :| 0 <= j < |properties| && f in FoundInProperty(properties[j].0, properties[j].1, Base(path));
        FoundBelow(properties[j].0, properties[j].1, Base(path), f);
      }
    }
    NoDuplicatesConcat(SelfFound(schema, path), FoundInEntries(schema, |schema|, path));
  }

  lemma FoundBelow(name: string, value: Json, path: Path, found: Found)
    requires UniqueKeys(value) && found in FoundInProperty(name, value, path)
    ensures |found.path| > |path| && found.path[|path|] == name
  {
    var location := FoundHasLocation(value.entries, Some(path + [name]), found);
  }

  lemma {:induction false} FoundOnceInEntries(schema: JsonObject, n: nat, path: Option<Path>)
    requires UniqueKeys(Object(schema)) && n <= |schema|
    ensures NoDuplicates(FoundInEntries(schema, n, path))
    decreases Object(schema), 1, n
  {
    if n > 0 {
      var front, last := FoundInEntries(schema, n - 1, path), FoundInKeyword(schema[n - 1].0, schema[n - 1].1, path);
      FoundOnceInEntries(schema, n - 1, path);
      if last != [] {
        FoundOnceInProperties(schema[n - 1].1.entries, |schema[n - 1].1.entries|, Base(path));
      }
      forall f | f in front ensures f !in last {
        InEntries(schema, n - 1, path, f);
      }
      NoDuplicatesConcat(front, last);
    }
  }

  lemma {:induction false} FoundOnceInProperties(properties: JsonObject, n: nat, path: Path)
    requires UniqueKeys(Object(properties)) && n <= |properties|
    ensures NoDuplicates(FoundInProperties(properties, n, path))
    decreases Object(properties), 1, n
  {
    if n > 0 {
      var name, value := properties[n - 1].0, properties[n - 1].1;
      var front, last := FoundInProperties(properties, n - 1, path), FoundInProperty(name, value, path);
      FoundOnceInProperties(properties, n - 1, path);
      if value.Object? {
        FoundOnce(value.entries, Some(path + [name]));
      }
      forall f | f in front ensures f !in last {
        InProperties(properties, n - 1, path, f);
        var j :| 0 <= j < n - 1 && f in FoundInProperty(properties[j].0, properties[j].1, path);
        FoundBelow(properties[j].0, properties[j].1, path, f);
        if f in last {
          FoundBelow(name, value, path, f);
        }
      }
      NoDuplicatesConcat(front, last);
    }
  }

  // ----- Main results -----

  function SchemaAt(schema: JsonObject, location: seq<Step>): JsonObject
    requires Carries(At(Object(schema), location))
  {
    At(Object(schema), location).value.entries
  }

  /** Every annotation is valid and statically reachable, below the root. */
  ghost predicate AnnotationsReachable(schema: JsonObject) {
    forall location | IsAnnotation(schema, location) ::
      IsSchemaLocation(location) && location != [] && ValidAnnotation(SchemaAt(schema, location))
  }

  ghost predicate NamesUnique(schema: JsonObject)
    requires AnnotationsReachable(schema)
  {
    forall a, b | IsAnnotation(schema, a) && IsAnnotation(schema, b) && a != b ::
      NameOf(SchemaAt(schema, a)) != NameOf(SchemaAt(schema, b))
  }

  ghost predicate SchemaAccepted(schema: JsonObject) { AnnotationsReachable(schema) && NamesUnique(schema) }

  /** `annotation` is the one that an annotated location of the schema declares. */
  ghost predicate Declares(schema: JsonObject, annotation: Annotation)
    requires AnnotationsReachable(schema)
  {
    exists location :: IsAnnotation(schema, location)
                       && annotation == AnnotationOf(SchemaAt(schema, location), PropertyPath(location))
  }

  lemma PropertyPathInjective(a: seq<Step>, b: seq<Step>)
    requires IsSchemaLocation(a) && IsSchemaLocation(b) && PropertyPath(a) == PropertyPath(b)
    ensures a == b
  {
    assert |a| == |PropertyPath(a)| * 2 && |b| == |PropertyPath(b)| * 2;
    forall i | 0 <= i < |a| ensures a[i] == b[i] {
      if i % 2 == 1 {
        assert PropertyPath(a)[i / 2] == a[2 * (i / 2) + 1].key;
        assert PropertyPath(b)[i / 2] == b[2 * (i / 2) + 1].key;
      }
    }
  }

  lemma AnnotationIsFound(schema: JsonObject, location: seq<Step>) returns (i: nat)
    requires UniqueKeys(Object(schema)) && IsAnnotation(schema, location)
    requires IsSchemaLocation(location) && location != []
    ensures i < |FoundIn(schema, None)|
    ensures FoundIn(schema, None)[i] == Found(PropertyPath(location), SchemaAt(schema, location))
  {
    var found := Found(PropertyPath(location), SchemaAt(schema, location));
    assert [] + PropertyPath(location) == PropertyPath(location);
    LocationIsFound(schema, None, location, found);
    i :| 0 <= i < |FoundIn(schema, None)| && FoundIn(schema, None)[i] == found;
  }

  lemma FoundIsAnnotation(schema: JsonObject, i: nat) returns (location: seq<Step>)
    requires UniqueKeys(Object(schema)) && i < |FoundIn(schema, None)|
    ensures IsAnnotation(schema, location) && IsSchemaLocation(location) && location != []
    ensures FoundIn(schema, None)[i] == Found(PropertyPath(location), SchemaAt(schema, location))
  {
    location := FoundHasLocation(schema, None, FoundIn(schema, None)[i]);
    assert [] + PropertyPath(location) == PropertyPath(location);
  }

  /** The walk's own test, on the collected list, is the declarative one, on locations. */
  lemma WalkDecidesAcceptance(schema: JsonObject)
    requires UniqueKeys(Object(schema))
    ensures SchemaAccepted(schema)
            <==> Placed(schema, true) && AllValid(FoundIn(schema, None)) && DistinctNames(FoundIn(schema, None))
  {
    var found := FoundIn(schema, None);
    if SchemaAccepted(schema) {
      if !Placed(schema, true) {
        var location := MisplacedHasLocation(schema, true);
        assert false;
      }
      forall i | 0 <= i < |found| ensures ValidAnnotation(found[i].schema) {
        var location := FoundIsAnnotation(schema, i);
      }
      forall i, j | 0 <= i < j < |found| ensures NameOf(found[i].schema) != NameOf(found[j].schema) {
        var a := FoundIsAnnotation(schema, i);
        var b := FoundIsAnnotation(schema, j);
        FoundOnce(schema, None);
      }
    }
    if Placed(schema, true) && AllValid(found) && DistinctNames(found) {
      forall location | IsAnnotation(schema, location)
        ensures IsSchemaLocation(location) && location != [] && ValidAnnotation(SchemaAt(schema, location))
      {
        PlacedSound(schema, true, location);
        var i := AnnotationIsFound(schema, location);
      }
      forall a, b | IsAnnotation(schema, a) && IsAnnotation(schema, b) && a != b
        ensures NameOf(SchemaAt(schema, a)) != NameOf(SchemaAt(schema, b))
      {
        var i := AnnotationIsFound(schema, a);
        var j := AnnotationIsFound(schema, b);
        if i == j {
          PropertyPathInjective(a, b);
        }
      }
    }
  }

  lemma CollectedExactly(schema: JsonObject, annotation: Annotation)
    requires UniqueKeys(Object(schema)) && SchemaAccepted(schema) && AllValid(FoundIn(schema, None))
    ensures annotation in AnnotationsOf(FoundIn(schema, None)) <==> Declares(schema, annotation)
  {
    var found := FoundIn(schema, None);
    if annotation in AnnotationsOf(found) {
      var i :| 0 <= i < |found| && AnnotationsOf(found)[i] == annotation;
      var location := FoundIsAnnotation(schema, i);
    }
    if Declares(schema, annotation) {
      var location :| IsAnnotation(schema, location)
        && annotation == AnnotationOf(SchemaAt(schema, location), PropertyPath(location));
      var i := AnnotationIsFound(schema, location);
      assert AnnotationsOf(found)[i] == annotation;
    }
  }

  lemma HeaderNamesDistinct(found: seq<Found>)
    requires AllValid(found) && DistinctNames(found)
    ensures forall i, j | 0 <= i < j < |found| ::
              AnnotationsOf(found)[i].headerName != AnnotationsOf(found)[j].headerName
  {
    forall i, j | 0 <= i < j < |found|
      ensures AnnotationsOf(found)[i].headerName != AnnotationsOf(found)[j].headerName
    {
      PrefixKeepsNames(Get(found[i].schema, ANNOTATION).value.s, Get(found[j].schema, ANNOTATION).value.s);
    }
  }

  lemma PrefixKeepsNames(a: string, b: string)
    ensures ToLower(PARAM_PREFIX + a) == ToLower(PARAM_PREFIX) + ToLower(a)
    ensures ToLower(PARAM_PREFIX + a) == ToLower(PARAM_PREFIX + b) ==> ToLower(a) == ToLower(b)
  {
    assert ToLower(PARAM_PREFIX + a) == ToLower(PARAM_PREFIX) + ToLower(a);
    assert ToLower(PARAM_PREFIX + b) == ToLower(PARAM_PREFIX) + ToLower(b);
    assert ToLower(a) == (ToLower(PARAM_PREFIX) + ToLower(a))[|PARAM_PREFIX|..];
    assert ToLower(b) == (ToLower(PARAM_PREFIX) + ToLower(b))[|PARAM_PREFIX|..];
  }

  /** The annotations of a schema: exactly the declared ones, each once, or an error. */
  method ParamHeaderAnnotations(schema: JsonObject) returns (r: Result<seq<Annotation>, WalkError>)
    requires UniqueKeys(Object(schema))
    ensures r.Ok? <==> SchemaAccepted(schema)
    ensures r.Ok? ==> forall annotation :: annotation in r.value <==> Declares(schema, annotation)
    ensures r.Ok? ==> forall i, j | 0 <= i < j < |r.value| :: r.value[i].headerName != r.value[j].headerName
  {
    var visitor := new SchemaVisitor();
    var visit := visitor.VisitSchema(schema, None);
    ghost var found := FoundIn(schema, None);
    WalkDecidesAcceptance(schema);
    if visit.Err? {
      assert !(AllValid(found) && DistinctNames(found)) || !Placed(schema, true) by {
        if AllValid(found) && DistinctNames(found) {
          RegisterComplete(found);
        }
      }
      return Err(visit.error);
    }
    RegisterSound(found);
    HeaderNamesDistinct(found);
    forall annotation ensures annotation in AnnotationsOf(found) <==> Declares(schema, annotation) {
      CollectedExactly(schema, annotation);
    }
    r := Ok(visitor.annotations);
  }

  // ----- A property named like the annotation -----

  const NAMED_PROPERTY: JsonObject := [(PROPERTIES, Object([(ANNOTATION, Object([]))]))]

  /** Under the reachable `properties` the key is a property name. */
  lemma NamedPropertyIsAccepted()
    ensures SchemaAccepted(NAMED_PROPERTY)
  {
    var properties: JsonObject := [(ANNOTATION, Object([]))];
    assert UniqueKeys(Object(properties)) && UniqueKeys(Object(NAMED_PROPERTY));
    assert PropertyPlaced(Object([])) && KeywordPlaced(PROPERTIES, Object(properties));
    assert FoundIn([], Some([ANNOTATION])) == [];
    assert [] + [ANNOTATION] == [ANNOTATION];
    assert FoundInProperty(ANNOTATION, Object([]), []) == [];
    assert FoundInProperties(properties, 0, []) == [] && FoundInProperties(properties, 1, []) == [];
    assert FoundInEntries(NAMED_PROPERTY, 0, None) == [] && FoundInEntries(NAMED_PROPERTY, 1, None) == [];
    WalkDecidesAcceptance(NAMED_PROPERTY);
  }

  /** Below any other keyword the same object is refused, since its key counts as an annotation there. */
  lemma NamedPropertyIsRefusedBelow(keyword: string)
    requires keyword != PROPERTIES && keyword != ANNOTATION
    ensures !SchemaAccepted([(keyword, Object(NAMED_PROPERTY))])
  {
    var schema: JsonObject := [(keyword, Object(NAMED_PROPERTY))];
    var properties: JsonObject := [(ANNOTATION, Object([]))];
    var location := [Key(keyword), Key(PROPERTIES)];
    assert Get(schema, keyword) == Some(Object(NAMED_PROPERTY));
    assert Get(NAMED_PROPERTY, PROPERTIES) == Some(Object(properties));
    assert location[1..] == [Key(PROPERTIES)] && location[1..][1..] == [];
    assert At(Object(properties), []) == Some(Object(properties));
    assert At(Object(NAMED_PROPERTY), [Key(PROPERTIES)]) == At(Object(properties), [Key(PROPERTIES)][1..]);
    assert At(Object(schema), location) == At(Object(NAMED_PROPERTY), location[1..]) == Some(Object(properties));
    assert properties[0].0 == ANNOTATION && HasKey(properties, ANNOTATION);
    assert location[0].key != PROPERTIES;
    assert IsAnnotation(schema, location) && !IsSchemaLocation(location);
  }

  // ----- What an annotation declares, spelled out -----

  lemma DeclaredTypes(schema: JsonObject)
    ensures DeclaredType(schema) == Some(BooleanType) <==> Get(schema, "type") == Some(String("boolean"))
    ensures DeclaredType(schema) == Some(IntegerType) <==> Get(schema, "type") == Some(String("integer"))
    ensures DeclaredType(schema) == Some(StringType) <==> Get(schema, "type") == Some(String("string"))
  {
  }

  /** A valid annotation is a token of at most 65525 characters on a boolean, an integer or a string. */
  lemma ValidAnnotationIff(schema: JsonObject)
    ensures ValidAnnotation(schema)
            <==> exists name: string ::
                   && Get(schema, "x-mcp-header") == Some(String(name))
                   && 1 <= |name| <= 65525 && (forall i | 0 <= i < |name| :: IsTchar(name[i]))
                   && Get(schema, "type") in [Some(String("boolean")), Some(String("integer")), Some(String("string"))]
  {
    DeclaredTypes(schema);
    if ValidAnnotation(schema) {
      assert Get(schema, "x-mcp-header") == Some(String(Get(schema, ANNOTATION).value.s));
    }
  }

  /** The declared header is the lower-cased name behind `mcp-param-`. */
  lemma DeclaredHeader(schema: JsonObject, path: Path)
    requires ValidAnnotation(schema)
    ensures AnnotationOf(schema, path).headerName == "mcp-param-" + ToLower(Get(schema, "x-mcp-header").value.s)
    ensures AnnotationOf(schema, path).path == path
    ensures Some(AnnotationOf(schema, path).parameterType) == DeclaredType(schema)
  {
    PrefixKeepsNames(Get(schema, ANNOTATION).value.s, "");
    assert ToLower(PARAM_PREFIX) == "mcp-param-";
  }
}
