/** Validation of `Mcp-Param-*` headers against the arguments of a tool call. */
module ParamValidator {
  import opened Common
  import opened Json
  import opened HttpHeaders
  import opened SchemaWalk
  import opened HeaderConfig
  import opened IntegerHeader

  const BASE64_PREFIX := "=?base64?"
  const BASE64_SUFFIX := "?="

  /** The library decoders: UTF-8 validity, and Base64 followed by UTF-8 decoding. */
  datatype Codec = Codec(isUtf8: string -> bool, base64Text: string -> Option<string>)

  datatype ParameterValue = BooleanValue(b: bool) | IntegerValue(i: int) | StringValue(s: string)

  datatype ValidationError = InvalidSchema(e: WalkError) | Unexpected | Missing | WrongType | Malformed | Mismatch

  // ----- Header values -----

  function StripSentinel(raw: string): Option<string> {
    if BASE64_PREFIX <= raw then
      var rest := raw[|BASE64_PREFIX|..];
      if |rest| >= |BASE64_SUFFIX| && rest[|rest| - |BASE64_SUFFIX|..] == BASE64_SUFFIX
      then Some(rest[..|rest| - |BASE64_SUFFIX|])
      else None
    else None
  }

  predicate IsBlank(c: char) { c == ' ' || c == '\t' }

  function DecodeHeaderValue(raw: string, codec: Codec): Option<string> {
    if !codec.isUtf8(raw) then None
    else
      match StripSentinel(raw)
      case Some(inner) => codec.base64Text(inner)
      case None =>
        if raw != "" && (IsBlank(raw[0]) || IsBlank(raw[|raw| - 1])) then None
        else if IsHeaderValue(raw) then Some(raw)
        else None
  }

  // ----- Body values -----

  function NumberText(number: Number): string {
    match number
    case PosInt(n) => PrintInteger(n)
    case NegInt(i) => PrintInteger(i)
    case Float(text) => text
  }

  function AsI64(number: Number): Option<int> {
    match number
    case PosInt(n) => InRange(n, I64_MIN, I64_MAX)
    case NegInt(i) => Some(i)
    case Float(_) => None
  }

  function AsU64(number: Number): Option<int> {
    match number
    case PosInt(n) => Some(n)
    case _ => None
  }

  /** `as_i64`, else `as_u64` narrowed, else the printed text parsed; then the safe range. */
  function NumberInteger(number: Number): Option<int> {
    var narrowed := match AsU64(number) case Some(n) => InRange(n, I64_MIN, I64_MAX) case None => None;
    var integer :=
      if AsI64(number).Some? then AsI64(number)
      else if narrowed.Some? then narrowed
      else ParseIntegerHeaderValue(NumberText(number));
    match integer
    case Some(i) => InRange(i, -MAX_SAFE_INTEGER, MAX_SAFE_INTEGER)
    case None => None
  }

  function ParameterValueOf(value: Json, parameterType: ParameterType): Option<ParameterValue> {
    match (parameterType, value)
    case (BooleanType, Bool(b)) => Some(BooleanValue(b))
    case (IntegerType, Number(number)) =>
      (match NumberInteger(number) case Some(i) => Some(IntegerValue(i)) case None => None)
    case (StringType, String(s)) => Some(StringValue(s))
    case _ => None
  }

  function BooleanText(b: bool): string { if b then "true" else "false" }

  predicate ParameterValuesMatch(headerValue: string, bodyValue: ParameterValue) {
    match bodyValue
    case BooleanValue(b) => headerValue == BooleanText(b)
    case IntegerValue(i) => ParseIntegerHeaderValue(headerValue) == Some(i)
    case StringValue(s) => headerValue == s
  }

  function KeysOf(path: Path): seq<Step> { seq(|path|, i requires 0 <= i < |path| => Key(path[i])) }

  /** The value at a property path; there is none at the empty path or without arguments. */
  function ValueAt(arguments: Option<JsonObject>, path: Path): Option<Json> {
    if path == [] || arguments.None? then None else At(Object(arguments.value), KeysOf(path))
  }

  /** A missing argument and an explicit null are the same. */
  function BodyValue(arguments: Option<JsonObject>, path: Path): Option<Json> {
    if ValueAt(arguments, path) == Some(Null) then None else ValueAt(arguments, path)
  }

  method ValueAtPropertyPath(arguments: Option<JsonObject>, path: Path) returns (r: Option<Json>)
    ensures r == ValueAt(arguments, path)
  {
    if path == [] || arguments.None? {
      return None;
    }
    r := Get(arguments.value, path[0]);
    assert KeysOf(path[1..]) == KeysOf(path)[1..];
    if r.None? {
      return;
    }
    for i := 1 to |path|
      invariant r.Some? && ValueAt(arguments, path) == At(r.value, KeysOf(path[i..]))
    {
      assert KeysOf(path[i..])[1..] == KeysOf(path[i + 1..]);
      if !r.value.Object? {
        return None;
      }
      r := Get(r.value.entries, path[i]);
      if r.None? {
        return;
      }
    }
  }

  // ----- What acceptance means -----

  /** The number is exactly the integer `i`. */
  ghost predicate NumberIs(number: Number, i: int) {
    match number
    case PosInt(n) => n == i
    case NegInt(n) => n == i
    case Float(text) => DenotesSafeInteger(text, i)
  }

  ghost predicate HasDeclaredValue(value: Json, parameterType: ParameterType, p: ParameterValue) {
    match parameterType
    case BooleanType => value.Bool? && p == BooleanValue(value.b)
    case IntegerType =>
      value.Number? && p.IntegerValue? && NumberIs(value.number, p.i) && -MAX_SAFE_INTEGER <= p.i <= MAX_SAFE_INTEGER
    case StringType => value.String? && p == StringValue(value.s)
  }

  /** Decoded header text stands for a parameter value; integers are compared by exact numeric value. */
  ghost predicate Represents(text: string, p: ParameterValue) {
    match p
    case BooleanValue(b) => text == BooleanText(b)
    case IntegerValue(i) => DenotesSafeInteger(text, i)
    case StringValue(s) => text == s
  }

  ghost predicate ValueRepresents(raw: string, p: ParameterValue, codec: Codec) {
    DecodeHeaderValue(raw, codec).Some? && Represents(DecodeHeaderValue(raw, codec).value, p)
  }

  ghost predicate EveryValueRepresents(values: seq<string>, p: ParameterValue, codec: Codec) {
    forall k | 0 <= k < |values| :: ValueRepresents(values[k], p, codec)
  }

  ghost predicate AnnotationAccepted(headers: HeaderMap, arguments: Option<JsonObject>, a: Annotation, codec: Codec) {
    var values, body := GetAll(headers, a.headerName), BodyValue(arguments, a.path);
    && (values == [] <==> body.None?)
    && (body.Some? ==>
          exists p :: HasDeclaredValue(body.value, a.parameterType, p) && EveryValueRepresents(values, p, codec))
  }

  ghost predicate ParamsAccepted(headers: HeaderMap, arguments: Option<JsonObject>, schema: JsonObject, codec: Codec) {
    && SchemaAccepted(schema)
    && forall a | Declares(schema, a) :: AnnotationAccepted(headers, arguments, a, codec)
  }

  lemma DenotedUnique(text: string, i: int, j: int)
    requires DenotesSafeInteger(text, i) && DenotesSafeInteger(text, j)
    ensures i == j
  {
    ParseExact(text, i);
    ParseExact(text, j);
  }

  lemma RepresentedUnique(text: string, p: ParameterValue, q: ParameterValue)
    requires Represents(text, p) && Represents(text, q)
    requires p.BooleanValue? <==> q.BooleanValue?
    requires p.IntegerValue? <==> q.IntegerValue?
    ensures p == q
  {
    if p.IntegerValue? {
      DenotedUnique(text, p.i, q.i);
    }
  }

  lemma NumberIntegerExact(number: Number, i: int)
    ensures NumberInteger(number) == Some(i) <==> NumberIs(number, i) && -MAX_SAFE_INTEGER <= i <= MAX_SAFE_INTEGER
  {
    match number
    case PosInt(n) => PrintParse(n);
    case NegInt(n) =>
    case Float(text) =>
      ParseExact(text, i);
      var parsed := ParseIntegerHeaderValue(text);
      if parsed.Some? {
        ParseExact(text, parsed.value);
      }
  }

  lemma ParameterValueExact(value: Json, parameterType: ParameterType, p: ParameterValue)
    ensures ParameterValueOf(value, parameterType) == Some(p) <==> HasDeclaredValue(value, parameterType, p)
  {
    if value.Number? && p.IntegerValue? {
      NumberIntegerExact(value.number, p.i);
    }
  }

  lemma MatchExact(text: string, p: ParameterValue)
    ensures ParameterValuesMatch(text, p) <==> Represents(text, p)
  {
    if p.IntegerValue? {
      ParseExact(text, p.i);
    }
  }

  /** The error of a header value that does not stand for the body value. */
  function ValueError(raw: string, codec: Codec): ValidationError {
    if DecodeHeaderValue(raw, codec).None? then Malformed else Mismatch
  }

  /** The first of the repeated values that does not stand for the body value. */
  ghost predicate FirstWrong(values: seq<string>, p: ParameterValue, codec: Codec, k: nat) {
    && k < |values| && !ValueRepresents(values[k], p, codec)
    && forall i | 0 <= i < k :: ValueRepresents(values[i], p, codec)
  }

  method MatchHeaderValue(raw: string, expected: ParameterValue, codec: Codec)
      returns (r: Result<(), ValidationError>)
    ensures r.Ok? <==> ValueRepresents(raw, expected, codec)
    ensures r.Err? ==> r.error == ValueError(raw, codec)
  {
    var decoded := DecodeHeaderValue(raw, codec);
    if decoded.None? {
      return Err(Malformed);
    }
    MatchExact(decoded.value, expected);
    var matches := ParameterValuesMatch(decoded.value, expected);
    r := if matches then Ok(()) else Err(Mismatch);
  }

  /** The inner loop over the repeated values of one header. */
  method MatchHeaderValues(values: seq<string>, expected: ParameterValue, codec: Codec)
      returns (r: Result<(), ValidationError>)
    ensures r.Ok? <==> EveryValueRepresents(values, expected, codec)
    ensures r.Err? ==> exists k: nat ::
                FirstWrong(values, expected, codec, k) && r.error == ValueError(values[k], codec)
  {
    for i := 0 to |values|
      invariant forall k | 0 <= k < i :: ValueRepresents(values[k], expected, codec)
    {
      r := MatchHeaderValue(values[i], expected, codec);
      if r.Err? {
        assert FirstWrong(values, expected, codec, i);
        return;
      }
    }
    r := Ok(());
  }

  /** Decides one annotation; each error has its own cause, and a wrong value is reported by the first one. */
  method ValidateAnnotation(headers: HeaderMap, arguments: Option<JsonObject>, a: Annotation, codec: Codec)
      returns (r: Result<(), ValidationError>)
    ensures r.Ok? <==> AnnotationAccepted(headers, arguments, a, codec)
    ensures r == Err(Unexpected) <==> GetAll(headers, a.headerName) != [] && BodyValue(arguments, a.path).None?
    ensures r == Err(Missing) <==> GetAll(headers, a.headerName) == [] && BodyValue(arguments, a.path).Some?
    ensures r == Err(WrongType) <==>
              && GetAll(headers, a.headerName) != [] && BodyValue(arguments, a.path).Some?
              && forall p :: !HasDeclaredValue(BodyValue(arguments, a.path).value, a.parameterType, p)
    ensures r.Err? && r.error !in {Unexpected, Missing, WrongType} ==>
              && BodyValue(arguments, a.path).Some?
              && exists p, k: nat ::
                   && HasDeclaredValue(BodyValue(arguments, a.path).value, a.parameterType, p)
                   && FirstWrong(GetAll(headers, a.headerName), p, codec, k)
                   && r.error == ValueError(GetAll(headers, a.headerName)[k], codec)
  {
    var values := GetAll(headers, a.headerName);
    var found := ValueAtPropertyPath(arguments, a.path);
    var body := if found == Some(Null) then None else found;
    if values == [] && body.None? {
      r := Ok(());
    } else if body.None? {
      r := Err(Unexpected);
    } else if values == [] {
      r := Err(Missing);
    } else {
      var expected := ParameterValueOf(body.value, a.parameterType);
      forall p ensures expected == Some(p) <==> HasDeclaredValue(body.value, a.parameterType, p) {
        ParameterValueExact(body.value, a.parameterType, p);
      }
      if expected.None? {
        return Err(WrongType);
      }
      r := MatchHeaderValues(values, expected.value, codec);
    }
  }

  /** Validation accepts exactly the calls that meet the declarative specification. */
  method ValidateToolParams(headers: HeaderMap, arguments: Option<JsonObject>, schema: JsonObject, codec: Codec)
      returns (r: Result<(), ValidationError>)
    requires UniqueKeys(Object(schema))
    ensures r.Ok? <==> ParamsAccepted(headers, arguments, schema, codec)
    ensures r.Err? && r.error.InvalidSchema? <==> !SchemaAccepted(schema)
  {
    var annotations := ParamHeaderAnnotations(schema);
    if annotations.Err? {
      return Err(InvalidSchema(annotations.error));
    }
    for i := 0 to |annotations.value|
      invariant forall k | 0 <= k < i :: AnnotationAccepted(headers, arguments, annotations.value[k], codec)
    {
      r := ValidateAnnotation(headers, arguments, annotations.value[i], codec);
      if r.Err? {
        assert annotations.value[i] in annotations.value;
        return;
      }
    }
    r := Ok(());
  }

  // ----- Consequences -----

  /** Both absent or null, or both the same value of the declared type. */
  ghost predicate SameParameter(x: Option<Json>, y: Option<Json>, parameterType: ParameterType) {
    || (x.None? && y.None?)
    || (x.Some? && y.Some? &&
        exists p :: HasDeclaredValue(x.value, parameterType, p) && HasDeclaredValue(y.value, parameterType, p))
  }

  /** The headers fix the body: two argument objects accepted with them agree at every annotated path. */
  lemma HeadersFixBody(headers: HeaderMap, x: Option<JsonObject>, y: Option<JsonObject>, schema: JsonObject,
                       a: Annotation, codec: Codec)
    requires ParamsAccepted(headers, x, schema, codec) && ParamsAccepted(headers, y, schema, codec)
    requires Declares(schema, a)
    ensures SameParameter(BodyValue(x, a.path), BodyValue(y, a.path), a.parameterType)
  {
    var values := GetAll(headers, a.headerName);
    assert AnnotationAccepted(headers, x, a, codec) && AnnotationAccepted(headers, y, a, codec);
    if values != [] {
      var bodyX, bodyY := BodyValue(x, a.path).value, BodyValue(y, a.path).value;
      var p :| HasDeclaredValue(bodyX, a.parameterType, p) && EveryValueRepresents(values, p, codec);
      var q :| HasDeclaredValue(bodyY, a.parameterType, q) && EveryValueRepresents(values, q, codec);
      RepresentedUnique(DecodeHeaderValue(values[0], codec).value, p, q);
    }
  }

  /** `upstream` lists a single-valued header map. */
  ghost predicate Lists(upstream: HeaderMap, headers: map<string, string>) {
    forall name :: GetAll(upstream, name) == if name in headers then [headers[name]] else []
  }

  lemma AnnotatedHeaderIsParam(schema: JsonObject, a: Annotation)
    requires AnnotationsReachable(schema) && Declares(schema, a)
    ensures IsParam(a.headerName)
  {
    var location :| IsAnnotation(schema, location)
      && a == AnnotationOf(SchemaAt(schema, location), PropertyPath(location));
    var name := Get(SchemaAt(schema, location), ANNOTATION).value.s;
    PrefixKeepsNames(name, name);
    assert a.headerName[..|PARAM_PREFIX|] == ToLower(PARAM_PREFIX);
    assert ToLower(ToLower(PARAM_PREFIX)) == ToLower(PARAM_PREFIX);
  }

  lemma ForwardedValueAccepted(headers: HeaderMap, upstream: HeaderMap, arguments: Option<JsonObject>, a: Annotation,
                               codec: Codec)
    requires AnnotationAccepted(headers, arguments, a, codec)
    requires var values := GetAll(headers, a.headerName);
             GetAll(upstream, a.headerName) == if values == [] then [] else [values[|values| - 1]]
    ensures AnnotationAccepted(upstream, arguments, a, codec)
  {
    var values, forwarded := GetAll(headers, a.headerName), GetAll(upstream, a.headerName);
    var body := BodyValue(arguments, a.path);
    if body.Some? {
      var p :| HasDeclaredValue(body.value, a.parameterType, p) && EveryValueRepresents(values, p, codec);
      assert EveryValueRepresents(forwarded, p, codec);
    }
  }

  /** Of a parameter header the last value goes upstream. */
  lemma ParamIsForwarded(headers: HeaderMap, config: BackendHeaders, initial: map<string, string>,
                         final: map<string, string>, upstream: HeaderMap, name: string)
    requires IsParam(name) && name !in initial && Lists(upstream, final)
    requires Lookup(final, name) == Precedence(name, Lookup(initial, name), config, headers)
    ensures var values := GetAll(headers, name);
            GetAll(upstream, name) == if values == [] then [] else [values[|values| - 1]]
  {
    assert Lookup(final, name) == Last(GetAll(headers, name));
  }

  /** What the gateway accepted, the backend accepts too, whatever the header configuration. */
  lemma ValidationSurvivesForwarding(
      headers: HeaderMap, arguments: Option<JsonObject>, schema: JsonObject, codec: Codec,
      config: BackendHeaders, initial: map<string, string>, final: map<string, string>, upstream: HeaderMap)
    requires ParamsAccepted(headers, arguments, schema, codec)
    requires forall name | name in initial :: !IsParam(name)
    requires forall name :: Lookup(final, name) == Precedence(name, Lookup(initial, name), config, headers)
    requires Lists(upstream, final)
    ensures ParamsAccepted(upstream, arguments, schema, codec)
  {
    forall a | Declares(schema, a) ensures AnnotationAccepted(upstream, arguments, a, codec) {
      AnnotatedHeaderIsParam(schema, a);
      ParamIsForwarded(headers, config, initial, final, upstream, a.headerName);
      ForwardedValueAccepted(headers, upstream, arguments, a, codec);
    }
  }

  /** A value that is the same parameter is accepted with the same headers. */
  lemma SameParameterAccepted(headers: HeaderMap, x: Option<JsonObject>, y: Option<JsonObject>,
                              a: Annotation, codec: Codec)
    requires AnnotationAccepted(headers, x, a, codec)
    requires SameParameter(BodyValue(x, a.path), BodyValue(y, a.path), a.parameterType)
    ensures AnnotationAccepted(headers, y, a, codec)
  {
    var bodyX, bodyY := BodyValue(x, a.path), BodyValue(y, a.path);
    if bodyX.Some? {
      var p :| HasDeclaredValue(bodyX.value, a.parameterType, p) && HasDeclaredValue(bodyY.value, a.parameterType, p);
      var q :| HasDeclaredValue(bodyX.value, a.parameterType, q)
               && EveryValueRepresents(GetAll(headers, a.headerName), q, codec);
      ParameterValueExact(bodyX.value, a.parameterType, p);
      ParameterValueExact(bodyX.value, a.parameterType, q);
    }
  }

  /**
    A plugin may edit the arguments after validation. The headers sent on are accepted with the edited arguments
    exactly if no annotated argument was changed: not its value, and not whether it is there.
   */
  lemma LateEditAcceptedIff(
      headers: HeaderMap, validated: Option<JsonObject>, edited: Option<JsonObject>, schema: JsonObject, codec: Codec,
      config: BackendHeaders, initial: map<string, string>, final: map<string, string>, upstream: HeaderMap)
    requires ParamsAccepted(headers, validated, schema, codec)
    requires forall name | name in initial :: !IsParam(name)
    requires forall name :: Lookup(final, name) == Precedence(name, Lookup(initial, name), config, headers)
    requires Lists(upstream, final)
    ensures ParamsAccepted(upstream, edited, schema, codec)
            <==> forall a | Declares(schema, a) ::
                   SameParameter(BodyValue(validated, a.path), BodyValue(edited, a.path), a.parameterType)
  {
    ValidationSurvivesForwarding(headers, validated, schema, codec, config, initial, final, upstream);
    forall a | Declares(schema, a)
      ensures SameParameter(BodyValue(validated, a.path), BodyValue(edited, a.path), a.parameterType)
              ==> AnnotationAccepted(upstream, edited, a, codec)
    {
      if SameParameter(BodyValue(validated, a.path), BodyValue(edited, a.path), a.parameterType) {
        SameParameterAccepted(upstream, validated, edited, a, codec);
      }
    }
    if ParamsAccepted(upstream, edited, schema, codec) {
      forall a | Declares(schema, a)
        ensures SameParameter(BodyValue(validated, a.path), BodyValue(edited, a.path), a.parameterType)
      {
        HeadersFixBody(upstream, validated, edited, schema, a, codec);
      }
    }
  }

  /** The two steps of a routed call, together: validate, then build the upstream headers. */
  method ValidateAndForward(headers: HeaderMap, arguments: Option<JsonObject>, schema: JsonObject, codec: Codec,
                            config: BackendHeaders, upstream: UpstreamHeaders)
      returns (r: Result<(), ValidationError>)
    requires UniqueKeys(Object(schema))
    requires forall name | name in upstream.headers :: !IsParam(name)
    modifies upstream
    ensures r.Ok? <==> ParamsAccepted(headers, arguments, schema, codec)
    ensures r.Ok? ==> forall u | Lists(u, upstream.headers) :: ParamsAccepted(u, arguments, schema, codec)
    ensures r.Ok? ==> forall header :: Lookup(upstream.headers, header)
                        == Precedence(header, Lookup(old(upstream.headers), header), config, headers)
    ensures r.Err? ==> upstream.headers == old(upstream.headers)
  {
    ghost var initial := upstream.headers;
    r := ValidateToolParams(headers, arguments, schema, codec);
    if r.Ok? {
      upstream.ApplyHeaderConfig(config, Some(headers));
      forall u | Lists(u, upstream.headers) ensures ParamsAccepted(u, arguments, schema, codec) {
        ValidationSurvivesForwarding(headers, arguments, schema, codec, config, initial, upstream.headers, u);
      }
    }
  }

  // ----- What texts stand for -----

  /** The raw value is the sentinel form of the inner text. */
  predicate IsSentinel(raw: string, inner: string) { raw == "=?base64?" + inner + "?=" }

  lemma StripSentinelIff(raw: string, inner: string)
    ensures StripSentinel(raw) == Some(inner) <==> IsSentinel(raw, inner)
  {
    if StripSentinel(raw) == Some(inner) {
      assert raw == raw[..|BASE64_PREFIX|] + raw[|BASE64_PREFIX|..];
    }
    if IsSentinel(raw, inner) {
      var rest := inner + "?=";
      assert raw == BASE64_PREFIX + rest;
      assert raw[|BASE64_PREFIX|..] == rest;
      assert rest[|rest| - |BASE64_SUFFIX|..] == BASE64_SUFFIX && rest[..|rest| - |BASE64_SUFFIX|] == inner;
    }
  }

  /** A sentinel is decoded; any other value is taken as it is if it is plain: printable, and not padded with blanks. */
  lemma DecodedIff(raw: string, text: string, codec: Codec)
    ensures DecodeHeaderValue(raw, codec) == Some(text)
            <==> && codec.isUtf8(raw)
                 && (|| (exists inner :: IsSentinel(raw, inner) && codec.base64Text(inner) == Some(text))
                     || (&& (forall inner :: !IsSentinel(raw, inner))
                         && raw == text
                         && (forall i | 0 <= i < |raw| :: raw[i] == '\t' || 0x20 <= raw[i] as int <= 0x7E)
                         && (raw != "" ==> raw[0] !in " \t" && raw[|raw| - 1] !in " \t")))
  {
    forall inner ensures StripSentinel(raw) == Some(inner) <==> IsSentinel(raw, inner) {
      StripSentinelIff(raw, inner);
    }
  }

  /**
    A declared boolean: with plain header values acceptance holds exactly if there is neither header nor argument, or
    the argument is true and each value is "true", or it is false and each is "false".
   */
  lemma BooleanHeaderIff(headers: HeaderMap, arguments: Option<JsonObject>, a: Annotation, codec: Codec)
    requires a.parameterType == BooleanType
    requires forall value | value in GetAll(headers, a.headerName) :: DecodeHeaderValue(value, codec) == Some(value)
    ensures var values, body := GetAll(headers, a.headerName), BodyValue(arguments, a.path);
            AnnotationAccepted(headers, arguments, a, codec)
            <==> || (values == [] && body == None)
                 || (values != [] && body == Some(Bool(true)) && forall k | 0 <= k < |values| :: values[k] == "true")
                 || (values != [] && body == Some(Bool(false)) && forall k | 0 <= k < |values| :: values[k] == "false")
  {
    var values, body := GetAll(headers, a.headerName), BodyValue(arguments, a.path);
    assert forall k | 0 <= k < |values| :: values[k] in values;
    forall b: bool
      ensures EveryValueRepresents(values, BooleanValue(b), codec)
              <==> forall k | 0 <= k < |values| :: values[k] == if b then "true" else "false"
    {
    }
    if body.Some? && body.value.Bool? {
      assert HasDeclaredValue(body.value, BooleanType, BooleanValue(body.value.b));
    }
  }

  /** A declared string: the argument is a string and each value, decoded, is that string. */
  lemma StringHeaderIff(headers: HeaderMap, arguments: Option<JsonObject>, a: Annotation, codec: Codec)
    requires a.parameterType == StringType
    ensures var values, body := GetAll(headers, a.headerName), BodyValue(arguments, a.path);
            AnnotationAccepted(headers, arguments, a, codec)
            <==> || (values == [] && body == None)
                 || (&& values != [] && body.Some? && body.value.String?
                     && forall k | 0 <= k < |values| :: DecodeHeaderValue(values[k], codec) == Some(body.value.s))
  {
    var values, body := GetAll(headers, a.headerName), BodyValue(arguments, a.path);
    if body.Some? && body.value.String? {
      assert HasDeclaredValue(body.value, StringType, StringValue(body.value.s));
      assert EveryValueRepresents(values, StringValue(body.value.s), codec)
             <==> forall k | 0 <= k < |values| :: DecodeHeaderValue(values[k], codec) == Some(body.value.s);
    }
  }

  /** A declared integer: some safe integer is the argument's exact value and that of each value, decoded. */
  lemma IntegerHeaderIff(headers: HeaderMap, arguments: Option<JsonObject>, a: Annotation, codec: Codec)
    requires a.parameterType == IntegerType
    ensures var values, body := GetAll(headers, a.headerName), BodyValue(arguments, a.path);
            AnnotationAccepted(headers, arguments, a, codec)
            <==> || (values == [] && body == None)
                 || (values != [] && body.Some? && body.value.Number?
                     && exists i: int :: && -0x1F_FFFF_FFFF_FFFF <= i <= 0x1F_FFFF_FFFF_FFFF
                                         && NumberIs(body.value.number, i) && EveryValueDenotes(values, i, codec))
  {
    var values, body := GetAll(headers, a.headerName), BodyValue(arguments, a.path);
    forall i: int
      ensures EveryValueRepresents(values, IntegerValue(i), codec) <==> EveryValueDenotes(values, i, codec)
    {
    }
    if body.Some? && body.value.Number? {
      forall i: int
        ensures HasDeclaredValue(body.value, IntegerType, IntegerValue(i))
                <==> NumberIs(body.value.number, i) && -0x1F_FFFF_FFFF_FFFF <= i <= 0x1F_FFFF_FFFF_FFFF
      {
      }
    }
  }

  ghost predicate EveryValueDenotes(values: seq<string>, i: int, codec: Codec) {
    forall k | 0 <= k < |values| ::
      DecodeHeaderValue(values[k], codec).Some? && DenotesSafeInteger(DecodeHeaderValue(values[k], codec).value, i)
  }
}
