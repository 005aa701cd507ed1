/** Import direction for HTTP: the OpenAPI `paths` object to one Fern HTTP
    service (src/converters/serviceConverter.ts). The guards, the body
    resolution and the parameter classification are check-or-fail functions;
    the loops that build the endpoint and parameter records are methods
    proved against the fold functions that specify them. */
module ServiceConverter {
  import opened Common
  import opened OpenApi
  import opened FernSchema
  import TypeConverter

  // ---------------------------------------------------------------------
  // Guards
  // ---------------------------------------------------------------------

  /** `getOperationIdOrThrow` */
  function OperationIdOf(op: Operation): (r: Result<string>)
    ensures r.Ok? <==> op.operationId.Some?
    ensures r.Ok? ==> r.value == op.operationId.value
    ensures r.Failure? ==> r.error == MissingOperationId
  {
    if op.operationId.None? then Failure(MissingOperationId) else Ok(op.operationId.value)
  }

  /** `getResponseOrThrow`: the "200" response, else the "201" response. */
  function ResponseOf(operationId: string, op: Operation): (r: Result<Body>)
    ensures r.Failure? <==> "200" !in Keys(op.responses) && "201" !in Keys(op.responses)
    ensures r.Failure? ==> r.error == MissingSuccessResponse(operationId)
    ensures "200" in Keys(op.responses) ==> r == Ok(Lookup(op.responses, "200").value)
    ensures "200" !in Keys(op.responses) && "201" in Keys(op.responses) ==>
              r == Ok(Lookup(op.responses, "201").value)
  {
    match Lookup(op.responses, "200")
    case Some(b) => Ok(b)
    case None =>
      match Lookup(op.responses, "201")
      case Some(b) => Ok(b)
      case None => Failure(MissingSuccessResponse(operationId))
  }

  /** `getRequestOrThrow` */
  function RequestOf(operationId: string, op: Operation): (r: Result<Body>)
    ensures r.Ok? <==> op.requestBody.Some?
    ensures r.Ok? ==> r.value == op.requestBody.value
    ensures r.Failure? ==> r.error == MissingRequestBody(operationId)
  {
    if op.requestBody.None? then Failure(MissingRequestBody(operationId)) else Ok(op.requestBody.value)
  }

  // ---------------------------------------------------------------------
  // Bodies
  // ---------------------------------------------------------------------

  /** A body seen through the schema helpers: they read only `$ref`. */
  function AsReference(b: Body): (s: Schema)
    ensures TypeConverter.IsReferenceObject(s) <==> b.ref.Some?
  {
    EmptySchema.(ref := b.ref)
  }

  /** A content entry that stops the scan: its media type names JSON and
      it has a schema. */
  predicate Decisive(entry: (string, MediaType)) {
    Includes(entry.0, "json") && entry.1.schema.Some?
  }

  /** The scan of `for (const contentType in response.content)`. */
  function ContentTypeOf(content: Record<MediaType>): Result<string>
    decreases |content|
  {
    if content == [] then Failure(UnconvertibleBody)
    else if Decisive(content[0]) then
      var schema := content[0].1.schema.value;
      if TypeConverter.IsReferenceObject(schema) then Ok(TypeConverter.GetTypeNameFromReferenceObject(schema))
      else Failure(InlineBodyUnsupported)
    else ContentTypeOf(content[1..])
  }

  /** `convertToFernType` of the service converter, as a function. */
  function BodyTypeOf(b: Body): Result<string> {
    if b.ref.Some? then Ok(TypeConverter.GetTypeNameFromReferenceObject(AsReference(b)))
    else if b.content.Some? then ContentTypeOf(b.content.value)
    else Failure(UnconvertibleBody)
  }

  /** `convertToFernType`: a reference names the type; otherwise the
      content types are scanned in order and the scan returns early. */
  method ConvertToFernType(b: Body) returns (r: Result<string>)
    ensures r == BodyTypeOf(b)
  {
    if b.ref.Some? {
      return Ok(TypeConverter.GetTypeNameFromReferenceObject(AsReference(b)));
    }
    if b.content.Some? {
      var content := b.content.value;
      var i := 0;
      while i < |content|
        invariant 0 <= i <= |content|
        invariant ContentTypeOf(content) == ContentTypeOf(content[i..])
      {
        assert content[i..][1..] == content[i + 1..];
        if Includes(content[i].0, "json") {
          var media := content[i].1;
          if media.schema.Some? {
            if TypeConverter.IsReferenceObject(media.schema.value) {
              return Ok(TypeConverter.GetTypeNameFromReferenceObject(media.schema.value));
            } else {
              return Failure(InlineBodyUnsupported);
            }
          }
        }
        i := i + 1;
      }
      assert content[i..] == [];
    }
    return Failure(UnconvertibleBody);
  }

  /** The first decisive content entry decides the body: a reference names
      the type, an inline schema fails. Entries before it are skipped. */
  lemma {:induction false} FirstDecisiveEntryDecides(content: Record<MediaType>, i: nat)
    requires i < |content| && Decisive(content[i])
    requires forall j :: 0 <= j < i ==> !Decisive(content[j])
    ensures var schema := content[i].1.schema.value;
            ContentTypeOf(content) ==
            if TypeConverter.IsReferenceObject(schema) then Ok(TypeConverter.GetTypeNameFromReferenceObject(schema))
            else Failure(InlineBodyUnsupported)
    decreases i
  {
    if i > 0 {
      assert !Decisive(content[0]);
      var rest := content[1..];
      forall j | 0 <= j < i - 1 ensures !Decisive(rest[j]) {
        assert rest[j] == content[j + 1];
      }
      assert rest[i - 1] == content[i];
      FirstDecisiveEntryDecides(rest, i - 1);
    }
  }

  /** With no decisive content entry the body cannot be converted. */
  lemma {:induction false} NoDecisiveEntryFails(content: Record<MediaType>)
    requires forall j :: 0 <= j < |content| ==> !Decisive(content[j])
    ensures ContentTypeOf(content) == Failure(UnconvertibleBody)
    decreases |content|
  {
    if content != [] {
      assert !Decisive(content[0]);
      var rest := content[1..];
      forall j | 0 <= j < |rest| ensures !Decisive(rest[j]) {
        assert rest[j] == content[j + 1];
      }
      NoDecisiveEntryFails(rest);
    }
  }

  /** A body that is itself a reference to `#/components/schemas/<name>`
      names `<name>`, whatever its content; a body with neither `$ref` nor
      `content` fails. */
  lemma BodyReferenceNamesType(name: string, content: Option<Record<MediaType>>)
    ensures BodyTypeOf(Body(Some(RefPrefix + name), content)) == Ok(name)
    ensures BodyTypeOf(Body(None, None)) == Failure(UnconvertibleBody)
  {
    TypeConverter.RefNameRoundTrip(name);
    assert AsReference(Body(Some(RefPrefix + name), content)) == RefSchema(name);
  }

  // ---------------------------------------------------------------------
  // Path parameters
  // ---------------------------------------------------------------------

  /** The schema types a path parameter may have. */
  const ParameterSchemaTypes: set<string> := {"boolean", "integer", "number", "string"}

  /** The Fern types a path parameter converts to. */
  const ParameterTypes: set<string> := {"boolean", "integer", "double", "string"}

  /** `convertSchemaToFernParameter` */
  function SchemaToFernParameter(s: Schema, parameterName: string): (r: Result<string>)
    ensures r.Ok? <==> s.schemaType.Some? && s.schemaType.value in ParameterSchemaTypes
    ensures r.Ok? ==> r.value in ParameterTypes
    ensures r.Ok? ==> r.value == TypeConverter.ScalarName(s.schemaType.value)
    ensures s.schemaType.None? ==> r == Failure(MissingParameterType(parameterName))
    ensures s.schemaType == Some("array") ==> r == Failure(ListParameter(parameterName))
  {
    if s.schemaType.None? then Failure(MissingParameterType(parameterName))
    else if s.schemaType.value == "array" then Failure(ListParameter(parameterName))
    else if s.schemaType.value == "boolean" then Ok("boolean")
    else if s.schemaType.value == "integer" then Ok("integer")
    else if s.schemaType.value == "number" then Ok("double")
    else if s.schemaType.value == "string" then Ok("string")
    else Failure(UnsupportedParameterType(parameterName))
  }

  /** A path parameter gets exactly the type a named schema of the same
      `type` is aliased to by the type converter; an object type, which
      the type converter accepts, is refused as a parameter. */
  lemma ParameterTypeAgreesWithAlias(s: Schema, parameterName: string)
    requires s.schemaType.Some?
    ensures var t := s.schemaType.value;
            SchemaToFernParameter(s, parameterName).Ok? <==>
            TypeConverter.ConvertNonArraySchemaObjectType(t).Ok? && t != "object"
    ensures var t := s.schemaType.value;
            SchemaToFernParameter(s, parameterName).Ok? ==>
            TypeConverter.ConvertNonArraySchemaObjectType(t) == Ok(AliasDef(SchemaToFernParameter(s, parameterName).value))
  {
  }

  /** `convertToFernParameter` */
  function ConvertToFernParameter(p: Parameter): (r: Result<string>)
    ensures p.location != "path" ==> r == Failure(NonPathParameter(p.name))
    ensures p.location == "path" && p.schema.None? ==> r == Failure(MissingParameterSchema(p.name))
    ensures p.location == "path" && p.schema.Some? && TypeConverter.IsReferenceObject(p.schema.value) ==>
              r == Failure(ReferenceParameterSchema(p.location))
  {
    if p.location != "path" then Failure(NonPathParameter(p.name))
    else if p.schema.Some? then
      if TypeConverter.IsSchemaObject(p.schema.value) then SchemaToFernParameter(p.schema.value, p.name)
      else Failure(ReferenceParameterSchema(p.location))
    else Failure(MissingParameterSchema(p.name))
  }

  /** A parameter the importer accepts: an inline `in: "path"` parameter
      with an inline schema of a scalar type. */
  predicate Accepted(p: Parameter) {
    p.ref.None? && p.location == "path" && p.schema.Some? && p.schema.value.ref.None? &&
    p.schema.value.schemaType.Some? && p.schema.value.schemaType.value in ParameterSchemaTypes
  }

  /** The `forEach` of `getFernPathParameters` as a fold over the remaining
      parameters. */
  function ParametersFrom(acc: Record<string>, params: seq<Parameter>): Result<Record<string>>
    decreases |params|
  {
    if params == [] then Ok(acc)
    else if params[0].ref.Some? then Failure(ReferenceParameter(params[0].ref.value))
    else
      var t :- ConvertToFernParameter(params[0]);
      ParametersFrom(Put(acc, params[0].name, t), params[1..])
  }

  /** `getFernPathParameters`, as a function; absent `parameters` give `{}`. */
  function PathParametersOf(op: Operation): Result<Record<string>> {
    if op.parameters.None? then Ok([]) else ParametersFrom([], op.parameters.value)
  }

  /** `getFernPathParameters` */
  method GetFernPathParameters(op: Operation) returns (r: Result<Record<string>>)
    ensures r == PathParametersOf(op)
  {
    var pathParameters: Record<string> := [];
    if op.parameters.Some? {
      var params := op.parameters.value;
      var i := 0;
      while i < |params|
        invariant 0 <= i <= |params|
        invariant ParametersFrom([], params) == ParametersFrom(pathParameters, params[i..])
      {
        assert params[i..][1..] == params[i + 1..];
        var parameter := params[i];
        if parameter.ref.Some? {
          return Failure(ReferenceParameter(parameter.ref.value));
        }
        var converted := ConvertToFernParameter(parameter);
        if converted.Failure? {
          return Failure(converted.error);
        }
        pathParameters := Put(pathParameters, parameter.name, converted.value);
        i := i + 1;
      }
      assert params[i..] == [];
    }
    r := Ok(pathParameters);
  }

  /** One parameter is accepted exactly when it is no reference and
      converts. */
  lemma ParameterAccepted(p: Parameter)
    ensures Accepted(p) <==> p.ref.None? && ConvertToFernParameter(p).Ok?
  {
  }

  /** One step of `ParametersFrom`: an accepted parameter is stored under
      its name, any other one fails the whole conversion. */
  lemma ParametersFromStep(acc: Record<string>, params: seq<Parameter>)
    requires params != []
    ensures Accepted(params[0]) ==>
              ParametersFrom(acc, params) ==
              ParametersFrom(Put(acc, params[0].name, ConvertToFernParameter(params[0]).value), params[1..])
    ensures !Accepted(params[0]) ==> ParametersFrom(acc, params).Failure?
  {
    ParameterAccepted(params[0]);
  }

  /** The parameters convert iff every one of them is accepted. */
  lemma {:induction false} ParametersAcceptedIff(acc: Record<string>, params: seq<Parameter>)
    ensures ParametersFrom(acc, params).Ok? <==> forall i :: 0 <= i < |params| ==> Accepted(params[i])
    decreases |params|
  {
    if params != [] {
      var p := params[0];
      var rest := params[1..];
      ParameterAccepted(p);
      ParametersFromStep(acc, params);
      if Accepted(p) {
        var acc' := Put(acc, p.name, ConvertToFernParameter(p).value);
        ParametersAcceptedIff(acc', rest);
        if forall i :: 0 <= i < |rest| ==> Accepted(rest[i]) {
          forall i | 0 <= i < |params| ensures Accepted(params[i]) {
            if i > 0 {
              assert params[i] == rest[i - 1];
            }
          }
        } else {
          var i :| 0 <= i < |rest| && !Accepted(rest[i]);
          assert rest[i] == params[i + 1];
        }
      }
    }
  }

  /** The names of the parameters, in order. */
  function ParameterNames(params: seq<Parameter>): (ns: seq<string>)
    ensures |ns| == |params|
    ensures forall i :: 0 <= i < |params| ==> ns[i] == params[i].name
  {
    if params == [] then [] else [params[0].name] + ParameterNames(params[1..])
  }

  /** Every parameter's name becomes a key, and every key is the name of a
      parameter (or was there before). */
  lemma {:induction false} ParametersKeys(acc: Record<string>, params: seq<Parameter>, k: string)
    requires ParametersFrom(acc, params).Ok?
    ensures k in Keys(ParametersFrom(acc, params).value) <==> k in Keys(acc) || k in ParameterNames(params)
    decreases |params|
  {
    if params != [] {
      var p := params[0];
      ParametersFromStep(acc, params);
      var acc' := Put(acc, p.name, ConvertToFernParameter(p).value);
      ParametersKeys(acc', params[1..], k);
      assert k in Keys(acc') <==> k in Keys(acc) || k == p.name;
      assert ParameterNames(params) == [p.name] + ParameterNames(params[1..]);
    }
  }

  /** A name that no remaining parameter has keeps its entry. */
  lemma {:induction false} ParametersAbsent(acc: Record<string>, params: seq<Parameter>, k: string)
    requires k !in ParameterNames(params)
    requires ParametersFrom(acc, params).Ok?
    ensures Lookup(ParametersFrom(acc, params).value, k) == Lookup(acc, k)
    decreases |params|
  {
    if params != [] {
      var p := params[0];
      ParametersFromStep(acc, params);
      assert ParameterNames(params) == [p.name] + ParameterNames(params[1..]);
      ParametersAbsent(Put(acc, p.name, ConvertToFernParameter(p).value), params[1..], k);
    }
  }

  /** Each name maps to the converted type of the last parameter with that
      name; with distinct names, of the parameter with that name. */
  lemma {:induction false} ParametersValues(acc: Record<string>, params: seq<Parameter>)
    requires ParametersFrom(acc, params).Ok?
    ensures forall i :: 0 <= i < |params| && (forall j :: i < j < |params| ==> params[j].name != params[i].name) ==>
              ConvertToFernParameter(params[i]).Ok? &&
              Lookup(ParametersFrom(acc, params).value, params[i].name) == Some(ConvertToFernParameter(params[i]).value)
    decreases |params|
  {
    if params != [] {
      var p := params[0];
      var rest := params[1..];
      var acc' := Put(acc, p.name, ConvertToFernParameter(p).value);
      ParametersAcceptedIff(acc, params);
      ParametersFromStep(acc, params);
      ParametersValues(acc', rest);
      var out := ParametersFrom(acc, params).value;
      forall i | 0 <= i < |params| && (forall j :: i < j < |params| ==> params[j].name != params[i].name)
        ensures ConvertToFernParameter(params[i]).Ok? &&
                Lookup(out, params[i].name) == Some(ConvertToFernParameter(params[i]).value)
      {
        ParameterAccepted(params[i]);
        if i == 0 {
          forall j | 0 <= j < |rest| ensures ParameterNames(rest)[j] != p.name {
            assert rest[j] == params[j + 1];
          }
          ParametersAbsent(acc', rest, p.name);
        } else {
          assert params[i] == rest[i - 1];
          forall j | i - 1 < j < |rest| ensures rest[j].name != rest[i - 1].name {
            assert rest[j] == params[j + 1];
          }
        }
      }
    }
  }

  /** Every converted parameter has one of the four scalar Fern types. */
  lemma {:induction false} ParametersScalar(acc: Record<string>, params: seq<Parameter>)
    requires forall e :: e in acc ==> e.1 in ParameterTypes
    requires ParametersFrom(acc, params).Ok?
    ensures forall e :: e in ParametersFrom(acc, params).value ==> e.1 in ParameterTypes
    decreases |params|
  {
    if params != [] {
      var p := params[0];
      var t := ConvertToFernParameter(p).value;
      var acc' := Put(acc, p.name, t);
      assert ParametersFrom(acc, params) == ParametersFrom(acc', params[1..]);
      forall e | e in acc' ensures e.1 in ParameterTypes {
        if e != (p.name, t) {
          PutMember(acc, p.name, t, e);
        }
      }
      ParametersScalar(acc', params[1..]);
    }
  }

  // ---------------------------------------------------------------------
  // Endpoints
  // ---------------------------------------------------------------------

  datatype ConvertedEndpoint = ConvertedEndpoint(operationId: string, convertedEndpoint: HttpEndpoint)

  /** The response type of an operation, when one is wanted. */
  function ResponseTypeOf(operationId: string, op: Operation): Result<Option<string>> {
    var b :- ResponseOf(operationId, op);
    var t :- BodyTypeOf(b);
    Ok(Some(t))
  }

  /** The request type of an operation, when one is wanted. */
  function RequestTypeOf(operationId: string, op: Operation): Result<Option<string>> {
    var b :- RequestOf(operationId, op);
    var t :- BodyTypeOf(b);
    Ok(Some(t))
  }

  /** `getFernHttpEndpoint`: the endpoint is keyed by `operationId`, sits at
      `pathName`, documents itself with the description, has a response
      exactly when one is asked for (the type of the 200 or 201 body) and a
      request exactly when one is asked for (the type of the request body),
      and never lists errors. */
  function GetFernHttpEndpoint(pathName: string, op: Operation, httpMethod: HttpMethod,
                               addRequest: bool, addResponse: bool): (r: Result<ConvertedEndpoint>)
    ensures r.Ok? ==> op.operationId == Some(r.value.operationId)
    ensures r.Ok? ==> var e := r.value.convertedEndpoint;
              e.httpMethod == httpMethod && e.path == pathName && e.docs == op.description && e.errors == [] &&
              (e.response.Some? <==> addResponse) && (e.request.Some? <==> addRequest) &&
              PathParametersOf(op) == Ok(e.parameters)
    ensures r.Ok? && addResponse ==>
              ResponseOf(r.value.operationId, op).Ok? && BodyTypeOf(ResponseOf(r.value.operationId, op).value).Ok? &&
              r.value.convertedEndpoint.response == Some(BodyTypeOf(ResponseOf(r.value.operationId, op).value).value)
    ensures r.Ok? && addRequest ==>
              op.requestBody.Some? && BodyTypeOf(op.requestBody.value).Ok? &&
              r.value.convertedEndpoint.request == Some(BodyTypeOf(op.requestBody.value).value)
  {
    var operationId :- OperationIdOf(op);
    var response :- if addResponse then ResponseTypeOf(operationId, op) else Ok(None);
    var request :- if addRequest then RequestTypeOf(operationId, op) else Ok(None);
    var parameters :- PathParametersOf(op);
    Ok(ConvertedEndpoint(operationId, HttpEndpoint(httpMethod, pathName, parameters, op.description, response, request, [])))
  }

  /** The checks run in order: `operationId`, then the response, then the
      request, then the parameters; the first that fails decides the error. */
  lemma EndpointErrorOrder(pathName: string, op: Operation, httpMethod: HttpMethod,
                           addRequest: bool, addResponse: bool)
    ensures op.operationId.None? ==>
              GetFernHttpEndpoint(pathName, op, httpMethod, addRequest, addResponse) == Failure(MissingOperationId)
    ensures op.operationId.Some? && addResponse &&
            "200" !in Keys(op.responses) && "201" !in Keys(op.responses) ==>
              GetFernHttpEndpoint(pathName, op, httpMethod, addRequest, addResponse) ==
              Failure(MissingSuccessResponse(op.operationId.value))
    ensures op.operationId.Some? && (!addResponse || ResponseTypeOf(op.operationId.value, op).Ok?) &&
            addRequest && op.requestBody.None? ==>
              GetFernHttpEndpoint(pathName, op, httpMethod, addRequest, addResponse) ==
              Failure(MissingRequestBody(op.operationId.value))
    ensures op.operationId.Some? && (!addResponse || ResponseTypeOf(op.operationId.value, op).Ok?) &&
            (!addRequest || RequestTypeOf(op.operationId.value, op).Ok?) ==>
              (GetFernHttpEndpoint(pathName, op, httpMethod, addRequest, addResponse).Ok? <==> PathParametersOf(op).Ok?)
  {
  }

  /** The flags `getFernHttpEndpoint` is called with, as
      (addRequest, addResponse). */
  function Flags(m: HttpMethod): (bool, bool) {
    match m
    case GET => (false, true)
    case POST => (true, true)
    case PUT => (true, true)
    case DELETE => (false, false)
  }

  /** The position of a method in the order the source visits them. */
  function Rank(m: HttpMethod): nat {
    match m
    case GET => 0
    case POST => 1
    case PUT => 2
    case DELETE => 3
  }

  /** The operations of a path item that become endpoints, in the order the
      source visits them; `patch` is skipped. */
  function Operations(item: PathItem): (ops: seq<(HttpMethod, Operation)>)
    ensures |ops| <= 4
    ensures forall i :: 0 <= i < |ops| ==> ops[i].0 != DELETE || i == |ops| - 1
  {
    Visit(GET, item.get) + Visit(POST, item.post) + Visit(PUT, item.put) + Visit(DELETE, item.delete)
  }

  /** One `if (pathItem.<method> != null)` block: the operation, if present. */
  function Visit(m: HttpMethod, o: Option<Operation>): seq<(HttpMethod, Operation)> {
    if o.Some? then [(m, o.value)] else []
  }

  /** Every method of `ops` comes strictly after the one before it. */
  predicate Ascending(ops: seq<(HttpMethod, Operation)>) {
    forall i, j :: 0 <= i < j < |ops| ==> Rank(ops[i].0) < Rank(ops[j].0)
  }

  /** A visit in front of operations of later methods keeps them ascending. */
  lemma VisitBefore(m: HttpMethod, o: Option<Operation>, rest: seq<(HttpMethod, Operation)>)
    requires Ascending(rest)
    requires forall i :: 0 <= i < |rest| ==> Rank(m) < Rank(rest[i].0)
    ensures Ascending(Visit(m, o) + rest)
    ensures forall i :: 0 <= i < |Visit(m, o) + rest| ==> Rank(m) <= Rank((Visit(m, o) + rest)[i].0)
    ensures forall x :: x in Visit(m, o) + rest <==> (o.Some? && x == (m, o.value)) || x in rest
  {
    var v := Visit(m, o);
    forall i, j | 0 <= i < j < |v + rest| ensures Rank((v + rest)[i].0) < Rank((v + rest)[j].0) {
      if |v| == 1 && i == 0 {
        assert (v + rest)[j] == rest[j - 1];
      } else {
        assert (v + rest)[i] == rest[i - |v|] && (v + rest)[j] == rest[j - |v|];
      }
    }
    forall i | 0 <= i < |v + rest| ensures Rank(m) <= Rank((v + rest)[i].0) {
      if i >= |v| {
        assert (v + rest)[i] == rest[i - |v|];
      }
    }
  }

  /** The four visits, grouped from the right. */
  lemma OperationsGrouped(item: PathItem)
    ensures Operations(item) ==
            Visit(GET, item.get) + (Visit(POST, item.post) + (Visit(PUT, item.put) + Visit(DELETE, item.delete)))
  {
    var a, b, c, d := Visit(GET, item.get), Visit(POST, item.post), Visit(PUT, item.put), Visit(DELETE, item.delete);
    AppendAssoc(a, b, c);
    AppendAssoc(a, b + c, d);
    AppendAssoc(b, c, d);
  }

  /** The operations of a path item are visited in get, post, put, delete
      order, and an operation appears exactly when the path item has it. */
  lemma OperationsInOrder(item: PathItem)
    ensures Ascending(Operations(item))
    ensures forall o :: (GET, o) in Operations(item) <==> item.get == Some(o)
    ensures forall o :: (POST, o) in Operations(item) <==> item.post == Some(o)
    ensures forall o :: (PUT, o) in Operations(item) <==> item.put == Some(o)
    ensures forall o :: (DELETE, o) in Operations(item) <==> item.delete == Some(o)
  {
    OperationsAscending(item);
    OperationsMembers(item);
  }

  /** The visited methods strictly ascend in get, post, put, delete order. */
  lemma OperationsAscending(item: PathItem)
    ensures Ascending(Operations(item))
  {
    var d := Visit(DELETE, item.delete);
    var cd := Visit(PUT, item.put) + d;
    var bcd := Visit(POST, item.post) + cd;
    OperationsGrouped(item);
    assert d + [] == d;
    VisitBefore(DELETE, item.delete, []);
    VisitBefore(PUT, item.put, d);
    VisitBefore(POST, item.post, cd);
    VisitBefore(GET, item.get, bcd);
  }

  /** Each visited operation is one the path item has, under its method. */
  lemma OperationsMembers(item: PathItem)
    ensures forall x :: x in Operations(item) <==>
              (item.get.Some? && x == (GET, item.get.value)) || (item.post.Some? && x == (POST, item.post.value)) ||
              (item.put.Some? && x == (PUT, item.put.value)) || (item.delete.Some? && x == (DELETE, item.delete.value))
  {
    var a, b, c, d := Visit(GET, item.get), Visit(POST, item.post), Visit(PUT, item.put), Visit(DELETE, item.delete);
    assert Operations(item) == a + b + c + d;
  }

  /** The endpoints of a sequence of operations, each stored under its
      `operationId`. */
  function EndpointsFrom(acc: Record<HttpEndpoint>, pathName: string, ops: seq<(HttpMethod, Operation)>)
    : Result<Record<HttpEndpoint>>
    decreases |ops|
  {
    if ops == [] then Ok(acc)
    else
      var c :- GetFernHttpEndpoint(pathName, ops[0].1, ops[0].0, Flags(ops[0].0).0, Flags(ops[0].0).1);
      EndpointsFrom(Put(acc, c.operationId, c.convertedEndpoint), pathName, ops[1..])
  }

  /** `convertToFernEndpoint`, as a function. */
  function EndpointsOf(pathName: string, item: PathItem): Result<Record<HttpEndpoint>> {
    EndpointsFrom([], pathName, Operations(item))
  }

  /** Converts one operation, if present, and stores it under its id. */
  method AddEndpoint(endpoints: Record<HttpEndpoint>, pathName: string, op: Option<Operation>, m: HttpMethod)
    returns (r: Result<Record<HttpEndpoint>>)
    ensures r == EndpointsFrom(endpoints, pathName, if op.Some? then [(m, op.value)] else [])
  {
    if op.None? {
      return Ok(endpoints);
    }
    var converted := GetFernHttpEndpoint(pathName, op.value, m, Flags(m).0, Flags(m).1);
    if converted.Failure? {
      return Failure(converted.error);
    }
    r := Ok(Put(endpoints, converted.value.operationId, converted.value.convertedEndpoint));
  }

  /** Running the endpoints of two runs of operations one after the other. */
  lemma {:induction false} EndpointsFromAppend(acc: Record<HttpEndpoint>, pathName: string,
                                               a: seq<(HttpMethod, Operation)>, b: seq<(HttpMethod, Operation)>)
    ensures EndpointsFrom(acc, pathName, a + b) ==
            match EndpointsFrom(acc, pathName, a)
            case Ok(mid) => EndpointsFrom(mid, pathName, b)
            case Failure(e) => Failure(e)
    decreases |a|
  {
    if a == [] {
      assert a + b == b;
    } else {
      assert (a + b)[0] == a[0] && (a + b)[1..] == a[1..] + b;
      var c := GetFernHttpEndpoint(pathName, a[0].1, a[0].0, Flags(a[0].0).0, Flags(a[0].0).1);
      if c.Ok? {
        EndpointsFromAppend(Put(acc, c.value.operationId, c.value.convertedEndpoint), pathName, a[1..], b);
      }
    }
  }

  /** `convertToFernEndpoint`: get, post, put and delete in that order, each
      overwriting an earlier endpoint with the same id; patch is skipped. */
  method ConvertToFernEndpoint(pathName: string, item: PathItem) returns (r: Result<Record<HttpEndpoint>>)
    ensures r == EndpointsOf(pathName, item)
  {
    var g := if item.get.Some? then [(GET, item.get.value)] else [];
    var po := if item.post.Some? then [(POST, item.post.value)] else [];
    var pu := if item.put.Some? then [(PUT, item.put.value)] else [];
    var d := if item.delete.Some? then [(DELETE, item.delete.value)] else [];
    assert Operations(item) == g + po + pu + d;
    EndpointsFromAppend([], pathName, g + po + pu, d);
    EndpointsFromAppend([], pathName, g + po, pu);
    EndpointsFromAppend([], pathName, g, po);
    var endpoints: Record<HttpEndpoint> := [];
    r := AddEndpoint(endpoints, pathName, item.get, GET);
    if r.Failure? {
      return;
    }
    r := AddEndpoint(r.value, pathName, item.post, POST);
    if r.Failure? {
      return;
    }
    r := AddEndpoint(r.value, pathName, item.put, PUT);
    if r.Failure? {
      return;
    }
    r := AddEndpoint(r.value, pathName, item.delete, DELETE);
  }

  /** GET has a response and no request, POST and PUT have both, DELETE
      has neither. */
  lemma MethodFlags(pathName: string, op: Operation, m: HttpMethod)
    requires GetFernHttpEndpoint(pathName, op, m, Flags(m).0, Flags(m).1).Ok?
    ensures var e := GetFernHttpEndpoint(pathName, op, m, Flags(m).0, Flags(m).1).value.convertedEndpoint;
            (e.response.Some? <==> m != DELETE) && (e.request.Some? <==> m == POST || m == PUT)
  {
  }

  /** A POST or PUT operation with an id but without a request body fails,
      once its response has converted. */
  lemma WriteWithoutBodyFails(pathName: string, op: Operation, m: HttpMethod)
    requires m == POST || m == PUT
    requires op.operationId.Some? && op.requestBody.None?
    requires ResponseTypeOf(op.operationId.value, op).Ok?
    ensures GetFernHttpEndpoint(pathName, op, m, Flags(m).0, Flags(m).1) == Failure(MissingRequestBody(op.operationId.value))
  {
  }

  /** A path item with only a `patch` operation yields no endpoint; adding
      or removing a `patch` operation never changes the endpoints. */
  lemma PatchIsSkipped(pathName: string, item: PathItem, patch: Option<Operation>)
    ensures EndpointsOf(pathName, item.(patch := patch)) == EndpointsOf(pathName, item)
    ensures EndpointsOf(pathName, PathItem(None, None, None, None, patch)) == Ok([])
  {
    assert Operations(item.(patch := patch)) == Operations(item);
    assert Operations(PathItem(None, None, None, None, patch)) == [];
  }

  /** When the endpoints of a run of operations convert, so does every
      operation of the run. */
  lemma {:induction false} EndpointsFromEachOk(acc: Record<HttpEndpoint>, pathName: string, ops: seq<(HttpMethod, Operation)>)
    requires EndpointsFrom(acc, pathName, ops).Ok?
    ensures forall i :: 0 <= i < |ops| ==>
              GetFernHttpEndpoint(pathName, ops[i].1, ops[i].0, Flags(ops[i].0).0, Flags(ops[i].0).1).Ok?
    decreases |ops|
  {
    if ops != [] {
      EndpointsFromStep(acc, pathName, ops);
      var c := EndpointOfOp(pathName, ops[0]).value;
      var rest := ops[1..];
      EndpointsFromEachOk(Put(acc, c.operationId, c.convertedEndpoint), pathName, rest);
      forall i | 0 <= i < |ops|
        ensures GetFernHttpEndpoint(pathName, ops[i].1, ops[i].0, Flags(ops[i].0).0, Flags(ops[i].0).1).Ok?
      {
        if i > 0 {
          assert ops[i] == rest[i - 1];
        }
      }
    }
  }

  /** The endpoint of an operation. */
  function EndpointOfOp(pathName: string, op: (HttpMethod, Operation)): Result<ConvertedEndpoint> {
    GetFernHttpEndpoint(pathName, op.1, op.0, Flags(op.0).0, Flags(op.0).1)
  }

  /** An id no operation of the run carries keeps what it had. */
  lemma {:induction false} EndpointsUntouched(acc: Record<HttpEndpoint>, pathName: string,
                                              ops: seq<(HttpMethod, Operation)>, k: string)
    requires EndpointsFrom(acc, pathName, ops).Ok?
    requires forall i :: 0 <= i < |ops| ==> ops[i].1.operationId != Some(k)
    ensures Lookup(EndpointsFrom(acc, pathName, ops).value, k) == Lookup(acc, k)
    decreases |ops|
  {
    if ops != [] {
      EndpointsFromStep(acc, pathName, ops);
      var c := EndpointOfOp(pathName, ops[0]).value;
      var acc' := Put(acc, c.operationId, c.convertedEndpoint);
      var rest := ops[1..];
      assert forall i :: 0 <= i < |rest| ==> rest[i].1.operationId != Some(k) by {
        forall i | 0 <= i < |rest| ensures rest[i].1.operationId != Some(k) {
          assert rest[i] == ops[i + 1];
        }
      }
      assert c.operationId != k;
      EndpointsUntouched(acc', pathName, rest, k);
    }
  }

  /** One step of `EndpointsFrom` on a run that converts. */
  lemma EndpointsFromStep(acc: Record<HttpEndpoint>, pathName: string, ops: seq<(HttpMethod, Operation)>)
    requires ops != [] && EndpointsFrom(acc, pathName, ops).Ok?
    ensures EndpointOfOp(pathName, ops[0]).Ok?
    ensures var c := EndpointOfOp(pathName, ops[0]).value;
            EndpointsFrom(acc, pathName, ops) == EndpointsFrom(Put(acc, c.operationId, c.convertedEndpoint), pathName, ops[1..])
  {
  }

  /** Last write wins within a path: the endpoint stored under an id is the
      one of the last operation carrying that id, whatever came before. */
  lemma EndpointsLastWins(acc: Record<HttpEndpoint>, pathName: string, pre: seq<(HttpMethod, Operation)>,
                          op: (HttpMethod, Operation), post: seq<(HttpMethod, Operation)>, k: string)
    requires EndpointsFrom(acc, pathName, pre + [op] + post).Ok?
    requires op.1.operationId == Some(k)
    requires forall j :: 0 <= j < |post| ==> post[j].1.operationId != Some(k)
    ensures EndpointOfOp(pathName, op).Ok?
    ensures Lookup(EndpointsFrom(acc, pathName, pre + [op] + post).value, k) ==
            Some(EndpointOfOp(pathName, op).value.convertedEndpoint)
  {
    var tail := [op] + post;
    assert EndpointsFrom(acc, pathName, pre).Ok? &&
           EndpointsFrom(acc, pathName, pre + [op] + post) == EndpointsFrom(EndpointsFrom(acc, pathName, pre).value, pathName, tail) by {
      AppendAssoc(pre, [op], post);
      EndpointsFromAppend(acc, pathName, pre, tail);
    }
    var mid := EndpointsFrom(acc, pathName, pre).value;
    assert tail[0] == op && tail[1..] == post;
    EndpointsFromStep(mid, pathName, tail);
    var c := EndpointOfOp(pathName, op).value;
    EndpointsUntouched(Put(mid, c.operationId, c.convertedEndpoint), pathName, post, k);
  }

  /** Within a path, a DELETE operation always wins its id. */
  lemma DeleteWinsItsId(pathName: string, item: PathItem)
    requires item.delete.Some? && item.delete.value.operationId.Some?
    requires EndpointsOf(pathName, item).Ok?
    ensures GetFernHttpEndpoint(pathName, item.delete.value, DELETE, false, false).Ok?
    ensures Lookup(EndpointsOf(pathName, item).value, item.delete.value.operationId.value) ==
            Some(GetFernHttpEndpoint(pathName, item.delete.value, DELETE, false, false).value.convertedEndpoint)
  {
    var ops := Operations(item);
    var pre := ops[..|ops| - 1];
    assert ops == pre + [(DELETE, item.delete.value)] + [];
    EndpointsLastWins([], pathName, pre, (DELETE, item.delete.value), [], item.delete.value.operationId.value);
  }

  /** Records built by storing endpoints one by one never repeat a key. */
  lemma {:induction false} EndpointsDistinct(acc: Record<HttpEndpoint>, pathName: string, ops: seq<(HttpMethod, Operation)>)
    requires Distinct(Keys(acc))
    requires EndpointsFrom(acc, pathName, ops).Ok?
    ensures Distinct(Keys(EndpointsFrom(acc, pathName, ops).value))
    decreases |ops|
  {
    if ops != [] {
      EndpointsFromStep(acc, pathName, ops);
      var c := EndpointOfOp(pathName, ops[0]).value;
      PutDistinct(acc, c.operationId, c.convertedEndpoint);
      EndpointsDistinct(Put(acc, c.operationId, c.convertedEndpoint), pathName, ops[1..]);
    }
  }

  // ---------------------------------------------------------------------
  // Service
  // ---------------------------------------------------------------------

  /** The loop of `convertToFernService` as a fold over the remaining
      paths; an absent path item is skipped. */
  function ServiceFrom(acc: Record<HttpEndpoint>, paths: Paths): Result<Record<HttpEndpoint>>
    decreases |paths|
  {
    if paths == [] then Ok(acc)
    else if paths[0].1.None? then ServiceFrom(acc, paths[1..])
    else
      var endpoints :- EndpointsOf(paths[0].0, paths[0].1.value);
      ServiceFrom(PutAll(acc, endpoints), paths[1..])
  }

  /** `convertToFernService`, as a function. */
  function ServiceOf(paths: Paths): Result<HttpService> {
    var endpoints :- ServiceFrom([], paths);
    Ok(HttpService(endpoints))
  }

  /** `convertToFernService` */
  method ConvertToFernService(paths: Paths) returns (r: Result<HttpService>)
    ensures r == ServiceOf(paths)
  {
    var fernEndpoints: Record<HttpEndpoint> := [];
    var i := 0;
    while i < |paths|
      invariant 0 <= i <= |paths|
      invariant ServiceFrom([], paths) == ServiceFrom(fernEndpoints, paths[i..])
    {
      assert paths[i..][1..] == paths[i + 1..];
      var pathName := paths[i].0;
      var pathEndpoints := paths[i].1;
      if pathEndpoints.Some? {
        var converted := ConvertToFernEndpoint(pathName, pathEndpoints.value);
        if converted.Failure? {
          return Failure(converted.error);
        }
        fernEndpoints := MergeEntries(fernEndpoints, converted.value);
      }
      i := i + 1;
    }
    assert paths[i..] == [];
    r := Ok(HttpService(fernEndpoints));
  }

  /** One step of `ServiceFrom` on paths that convert. */
  lemma ServiceFromStep(acc: Record<HttpEndpoint>, paths: Paths)
    requires paths != [] && ServiceFrom(acc, paths).Ok?
    ensures paths[0].1.None? ==> ServiceFrom(acc, paths) == ServiceFrom(acc, paths[1..])
    ensures paths[0].1.Some? ==>
              EndpointsOf(paths[0].0, paths[0].1.value).Ok? &&
              Distinct(Keys(EndpointsOf(paths[0].0, paths[0].1.value).value)) &&
              ServiceFrom(acc, paths) == ServiceFrom(PutAll(acc, EndpointsOf(paths[0].0, paths[0].1.value).value), paths[1..])
  {
    if paths[0].1.Some? {
      EndpointsDistinct([], paths[0].0, Operations(paths[0].1.value));
    }
  }

  /** An id no path item defines keeps what it had. */
  lemma {:induction false} ServiceUntouched(acc: Record<HttpEndpoint>, paths: Paths, k: string)
    requires ServiceFrom(acc, paths).Ok?
    requires forall i :: 0 <= i < |paths| && paths[i].1.Some? && EndpointsOf(paths[i].0, paths[i].1.value).Ok? ==>
               k !in Keys(EndpointsOf(paths[i].0, paths[i].1.value).value)
    ensures Lookup(ServiceFrom(acc, paths).value, k) == Lookup(acc, k)
    decreases |paths|
  {
    if paths != [] {
      ServiceFromStep(acc, paths);
      var rest := paths[1..];
      var acc' := if paths[0].1.None? then acc else PutAll(acc, EndpointsOf(paths[0].0, paths[0].1.value).value);
      if paths[0].1.Some? {
        PutAllLookup(acc, EndpointsOf(paths[0].0, paths[0].1.value).value, k);
      }
      assert Lookup(acc', k) == Lookup(acc, k);
      NotDefinedInTail(paths, 0, k);
      ServiceUntouched(acc', rest, k);
    }
  }

  /** What no path item after `i` defines, no path item of the tail after
      `i - 1` defines. */
  lemma NotDefinedInTail(paths: Paths, i: nat, k: string)
    requires i < |paths|
    requires forall j :: i < j < |paths| && paths[j].1.Some? && EndpointsOf(paths[j].0, paths[j].1.value).Ok? ==>
               k !in Keys(EndpointsOf(paths[j].0, paths[j].1.value).value)
    ensures var rest := paths[1..];
            forall j :: i <= j < |rest| && rest[j].1.Some? && EndpointsOf(rest[j].0, rest[j].1.value).Ok? ==>
              k !in Keys(EndpointsOf(rest[j].0, rest[j].1.value).value)
  {
    var rest := paths[1..];
    forall j | i <= j < |rest| && rest[j].1.Some? && EndpointsOf(rest[j].0, rest[j].1.value).Ok?
      ensures k !in Keys(EndpointsOf(rest[j].0, rest[j].1.value).value)
    {
      assert rest[j] == paths[j + 1];
    }
  }

  /** Running the service over two runs of paths one after the other. */
  lemma {:induction false} ServiceFromAppend(acc: Record<HttpEndpoint>, a: Paths, b: Paths)
    ensures ServiceFrom(acc, a + b) ==
            match ServiceFrom(acc, a)
            case Ok(mid) => ServiceFrom(mid, b)
            case Failure(e) => Failure(e)
    decreases |a|
  {
    if a == [] {
      assert a + b == b;
    } else {
      assert (a + b)[0] == a[0] && (a + b)[1..] == a[1..] + b;
      if a[0].1.None? {
        ServiceFromAppend(acc, a[1..], b);
      } else {
        var endpoints := EndpointsOf(a[0].0, a[0].1.value);
        if endpoints.Ok? {
          ServiceFromAppend(PutAll(acc, endpoints.value), a[1..], b);
        }
      }
    }
  }

  /** Last write wins across paths: the endpoint stored under an id comes
      from the last path item that defines that id, whatever came before. */
  lemma ServiceLastPathWins(acc: Record<HttpEndpoint>, pre: Paths, path: (string, Option<PathItem>), post: Paths, k: string)
    requires ServiceFrom(acc, pre + [path] + post).Ok?
    requires path.1.Some? && EndpointsOf(path.0, path.1.value).Ok?
    requires k in Keys(EndpointsOf(path.0, path.1.value).value)
    requires forall j :: 0 <= j < |post| && post[j].1.Some? && EndpointsOf(post[j].0, post[j].1.value).Ok? ==>
               k !in Keys(EndpointsOf(post[j].0, post[j].1.value).value)
    ensures Lookup(ServiceFrom(acc, pre + [path] + post).value, k) == Lookup(EndpointsOf(path.0, path.1.value).value, k)
  {
    var tail := [path] + post;
    assert ServiceFrom(acc, pre).Ok? &&
           ServiceFrom(acc, pre + [path] + post) == ServiceFrom(ServiceFrom(acc, pre).value, tail) by {
      AppendAssoc(pre, [path], post);
      ServiceFromAppend(acc, pre, tail);
    }
    var mid := ServiceFrom(acc, pre).value;
    assert tail[0] == path && tail[1..] == post;
    ServiceFromStep(mid, tail);
    var endpoints := EndpointsOf(path.0, path.1.value).value;
    ServiceUntouched(PutAll(mid, endpoints), post, k);
    PutAllLookup(mid, endpoints, k);
  }

  // ---------------------------------------------------------------------
  // The `getPost` endpoint
  // ---------------------------------------------------------------------

  /** `GET /posts/{id}` with `operationId: "getPost"`, a 200 JSON response
      referencing `Post` and one integer path parameter `id`. */
  function GetPostItem(): PathItem {
    var response := Body(None, Some([("application/json", MediaType(Some(RefSchema("Post"))))]));
    var id := Parameter(None, "id", "path", Some(EmptySchema.(schemaType := Some("integer"))));
    var op := Operation(Some("getPost"), None, [("200", response)], None, Some([id]));
    PathItem(Some(op), None, None, None, None)
  }

  /** The `getPost` path item converts to one endpoint keyed `getPost`. */
  lemma GetPostExample()
    ensures ServiceOf([("/posts/{id}", Some(GetPostItem()))]) ==
            Ok(HttpService([("getPost", HttpEndpoint(GET, "/posts/{id}", [("id", "integer")], None, Some("Post"), None, []))]))
  {
    var item := GetPostItem();
    var op := item.get.value;
    var content := [("application/json", MediaType(Some(RefSchema("Post"))))];
    assert OccursAt("application/json", "json", 12);
    assert Includes("application/json", "json");
    TypeConverter.RefNameRoundTrip("Post");
    assert ContentTypeOf(content) == Ok("Post");
    assert ResponseTypeOf("getPost", op) == Ok(Some("Post"));
    var params := op.parameters.value;
    assert params[1..] == [];
    assert ConvertToFernParameter(params[0]) == Ok("integer");
    assert ParametersFrom([], params) == ParametersFrom([("id", "integer")], []);
    assert PathParametersOf(op) == Ok([("id", "integer")]);
    var endpoint := HttpEndpoint(GET, "/posts/{id}", [("id", "integer")], None, Some("Post"), None, []);
    assert GetFernHttpEndpoint("/posts/{id}", op, GET, false, true) == Ok(ConvertedEndpoint("getPost", endpoint));
    assert Operations(item) == [(GET, op)];
    assert EndpointsOf("/posts/{id}", item) == Ok([("getPost", endpoint)]);
    var paths: Paths := [("/posts/{id}", Some(item))];
    assert paths[1..] == [];
    assert PutAll([], [("getPost", endpoint)]) == [("getPost", endpoint)] by {
      assert [("getPost", endpoint)][..0] == [];
    }
  }
}
