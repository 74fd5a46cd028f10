/** A call whose annotated argument a plugin edits after its headers were validated. */
module LateEdit {
  import opened Common
  import opened Json
  import opened HttpHeaders
  import opened SchemaWalk
  import opened HeaderConfig
  import opened ParamValidator

  const REGION: JsonObject := [("type", String("string")), (ANNOTATION, String("Region"))]
  const SCHEMA: JsonObject := [(PROPERTIES, Object([("region", Object(REGION))]))]
  const HEADER_NAME := ToLower(PARAM_PREFIX + "Region")
  const DECLARED := Annotation(HEADER_NAME, StringType, ["region"])

  function Arguments(region: string): Option<JsonObject> { Some([("region", String(region))]) }

  lemma RegionIsValid()
    ensures ValidAnnotation(REGION) && AnnotationOf(REGION, ["region"]) == DECLARED
  {
    assert Get(REGION, "type") == Some(String("string"));
    assert Get(REGION, ANNOTATION) == Some(String("Region"));
    assert IsToken("Region");
  }

  lemma SchemaHasUniqueKeys()
    ensures UniqueKeys(Object(SCHEMA))
  {
    assert UniqueKeys(Object(REGION));
    assert UniqueKeys(Object([("region", Object(REGION))]));
  }

  lemma RegionIsFound()
    ensures FoundIn(SCHEMA, None) == [Found(["region"], REGION)]
  {
    var properties: JsonObject := [("region", Object(REGION))];
    assert HasKey(REGION, ANNOTATION) by {
      assert REGION[1].0 == ANNOTATION;
    }
    assert FoundInKeyword("type", String("string"), Some(["region"])) == [];
    assert FoundInKeyword(ANNOTATION, String("Region"), Some(["region"])) == [];
    assert FoundInEntries(REGION, 0, Some(["region"])) == [];
    assert FoundInEntries(REGION, 1, Some(["region"])) == [];
    assert FoundInEntries(REGION, 2, Some(["region"])) == [];
    assert FoundIn(REGION, Some(["region"])) == [Found(["region"], REGION)];
    assert [] + ["region"] == ["region"];
    assert FoundInProperty("region", Object(REGION), []) == [Found(["region"], REGION)];
    assert FoundInProperties(properties, 0, []) == [];
    assert FoundInProperties(properties, 1, []) == [Found(["region"], REGION)];
    assert FoundInKeyword(PROPERTIES, Object(properties), None) == [Found(["region"], REGION)];
    assert FoundInEntries(SCHEMA, 0, None) == [];
    assert FoundInEntries(SCHEMA, 1, None) == [Found(["region"], REGION)];
  }

  lemma RegionIsPlaced()
    ensures Placed(SCHEMA, true)
  {
    assert KeywordPlaced("type", String("string"));
    assert KeywordPlaced(ANNOTATION, String("Region"));
    assert Placed(REGION, false);
    assert PropertyPlaced(Object(REGION));
    assert KeywordPlaced(PROPERTIES, Object([("region", Object(REGION))]));
  }

  /** The schema is acceptable and declares the one annotation. */
  lemma SchemaDeclares()
    ensures SchemaAccepted(SCHEMA) && forall a :: Declares(SCHEMA, a) <==> a == DECLARED
  {
    SchemaHasUniqueKeys();
    RegionIsPlaced();
    RegionIsFound();
    RegionIsValid();
    WalkDecidesAcceptance(SCHEMA);
    forall a ensures Declares(SCHEMA, a) <==> a == DECLARED {
      CollectedExactly(SCHEMA, a);
      assert AnnotationsOf(FoundIn(SCHEMA, None)) == [DECLARED];
    }
  }

  lemma RegionInBody(region: string)
    ensures BodyValue(Arguments(region), ["region"]) == Some(String(region))
  {
    var arguments := [("region", String(region))];
    assert KeysOf(["region"]) == [Key("region")];
    assert Get(arguments, "region") == Some(String(region));
    assert [Key("region")][1..] == [];
    assert At(String(region), []) == Some(String(region));
  }

  /** A single header value, forwarded by a backend configuration that says nothing. */
  lemma RegionIsForwarded(headers: HeaderMap, final: map<string, string>)
    requires headers == [(HEADER_NAME, "eu")] && final == map[HEADER_NAME := "eu"]
    ensures forall name :: GetAll(headers, name) == if name == HEADER_NAME then ["eu"] else []
    ensures forall name :: Lookup(final, name) == Precedence(name, None, BackendHeaders([], [], []), headers)
    ensures Lists(headers, final)
  {
    PrefixKeepsNames("Region", "Region");
    assert HEADER_NAME[..|PARAM_PREFIX|] == ToLower(PARAM_PREFIX);
    assert ToLower(ToLower(PARAM_PREFIX)) == ToLower(PARAM_PREFIX);
    assert IsParam(HEADER_NAME);
    forall name ensures GetAll(headers, name) == if name == HEADER_NAME then ["eu"] else [] {
      assert headers[..0] == [];
      assert GetAll(headers[..0], name) == [];
    }
    forall name ensures Lookup(final, name) == Precedence(name, None, BackendHeaders([], [], []), headers) {
      assert !Names([], name) && ValidAdds([], name) == [];
    }
  }

  /** The call: `region` is validated as "eu", edited to "us", and the header still says "eu". */
  lemma EditedRegionIsRefused(codec: Codec)
    requires codec.isUtf8("eu")
    ensures ParamsAccepted([(HEADER_NAME, "eu")], Arguments("eu"), SCHEMA, codec)
    ensures !ParamsAccepted([(HEADER_NAME, "eu")], Arguments("us"), SCHEMA, codec)
  {
    var headers, final := [(HEADER_NAME, "eu")], map[HEADER_NAME := "eu"];
    SchemaDeclares();
    RegionInBody("eu");
    RegionInBody("us");
    RegionIsForwarded(headers, final);
    assert StripSentinel("eu").None?;
    assert ValueRepresents("eu", StringValue("eu"), codec);
    assert HasDeclaredValue(String("eu"), StringType, StringValue("eu"));
    assert EveryValueRepresents(["eu"], StringValue("eu"), codec);
    assert AnnotationAccepted(headers, Arguments("eu"), DECLARED, codec);
    assert !SameParameter(Some(String("eu")), Some(String("us")), StringType);
    LateEditAcceptedIff(headers, Arguments("eu"), Arguments("us"), SCHEMA, codec, BackendHeaders([], [], []),
                        map[], final, headers);
    assert Declares(SCHEMA, DECLARED);
  }
}
