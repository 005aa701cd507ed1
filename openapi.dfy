/** The OpenAPI v3 objects the converters read and build, cut down to the
    keys the code touches. A JavaScript object is a bag of optional keys, so
    a schema object and a reference object (`{ $ref }`) are one record type
    here; which of the two a value is, is decided the way the source decides
    it, by whether `$ref` is set. */
module OpenApi {
  import opened Common

  /** An entry of an `enum` array: the importer keeps strings and drops
      every other JSON value. */
  datatype EnumValue = EnumString(s: string) | EnumOther

  datatype Schema = Schema(
    ref: Option<string>,                          // $ref
    schemaType: Option<string>,                   // type
    format: Option<string>,
    description: Option<string>,
    enumValues: Option<seq<EnumValue>>,           // enum
    items: Option<Schema>,
    properties: Option<Record<Schema>>,
    required: Option<seq<string>>,
    allOf: Option<seq<Schema>>,
    oneOf: Option<seq<Schema>>,
    additionalProperties: Option<Schema>,
    // The keys `result` and `isReqiured` of a type-conversion record; only
    // the union encoder stores such a record where a schema is expected.
    conversionResult: Option<Schema>,
    conversionIsRequired: Option<bool>)

  /** `{}` */
  const EmptySchema := Schema(None, None, None, None, None, None, None, None, None, None, None, None, None)

  /** The path prefix of every reference to a named schema. */
  const RefPrefix := "#/components/schemas/"

  /** `{ $ref: "#/components/schemas/<name>" }` */
  function RefSchema(name: string): (s: Schema)
    ensures s.ref == Some(RefPrefix + name)
  {
    EmptySchema.(ref := Some(RefPrefix + name))
  }

  /** `_.isEmpty(schemaObject)`: the object has no key at all. */
  predicate IsEmpty(s: Schema) {
    s == EmptySchema
  }

  /** A media-type entry of a request or response body. */
  datatype MediaType = MediaType(schema: Option<Schema>)

  /** A response object, a request-body object or a reference to one of
      them: the code reads only `$ref` and `content`. */
  datatype Body = Body(ref: Option<string>, content: Option<Record<MediaType>>)

  /** A parameter object or a reference to one. */
  datatype Parameter = Parameter(
    ref: Option<string>,
    name: string,
    location: string,                             // in
    schema: Option<Schema>)

  datatype Operation = Operation(
    operationId: Option<string>,
    description: Option<string>,
    responses: Record<Body>,
    requestBody: Option<Body>,
    parameters: Option<seq<Parameter>>)

  datatype PathItem = PathItem(
    get: Option<Operation>,
    post: Option<Operation>,
    put: Option<Operation>,
    delete: Option<Operation>,
    patch: Option<Operation>)

  /** The `paths` object; an absent path item is `None`. */
  type Paths = Record<Option<PathItem>>
}

/** The slice of Fern's intermediate representation the exporter reads. */
module Ir {
  import opened Common

  datatype PrimitiveType =
    | Boolean | Integer | Long | Double | String | DateTime | Uuid
    | UnknownPrimitive(raw: string)               // a visitor's `_unknown`

  datatype TypeReference =
    | Primitive(primitive: PrimitiveType)
    | Container(container: ContainerType)
    | Named(name: string)
    | Void
    | UnknownReference(raw: string)               // none of the four tags

  datatype ContainerType =
    | List(elementType: TypeReference)
    | Set(elementType: TypeReference)
    | Map(keyType: TypeReference, valueType: TypeReference)
    | Optional(itemType: TypeReference)
    | UnknownContainer(raw: string)

  datatype ObjectProperty = ObjectProperty(key: string, valueType: TypeReference, docs: Option<string>)

  datatype SingleUnionType = SingleUnionType(discriminantValue: string, valueType: TypeReference)

  datatype Shape =
    | Object(properties: seq<ObjectProperty>, extendsNames: seq<string>)
    | Alias(aliasOf: TypeReference)
    | Enum(values: seq<string>)
    | Union(discriminant: string, types: seq<SingleUnionType>)
    | UnknownShape(raw: string)

  datatype TypeDeclaration = TypeDeclaration(name: string, docs: Option<string>, shape: Shape)

  /** Only the type declarations are read by the per-declaration converter. */
  datatype IntermediateRepresentation = IntermediateRepresentation(types: seq<TypeDeclaration>)

  /** The outermost layer of the reference is `optional`. */
  predicate IsOptional(t: TypeReference) {
    t.Container? && t.container.Optional?
  }
}

/** The slice of Fern's definition language the importer produces. */
module FernSchema {
  import opened Common

  /** A `TypeDefinitionSchema`: a type-reference string (an alias), an
      object with named fields, or an enum. */
  datatype TypeDefinition =
    | AliasDef(target: string)
    | ObjectDef(fields: Record<string>)
    | EnumDef(values: seq<string>)

  /** `{ fields: {} }` */
  const EmptyObject := ObjectDef([])

  type Registry = Record<TypeDefinition>

  datatype HttpMethod = GET | POST | PUT | DELETE

  datatype HttpEndpoint = HttpEndpoint(
    httpMethod: HttpMethod,
    path: string,
    parameters: Record<string>,
    docs: Option<string>,
    response: Option<string>,
    request: Option<string>,
    errors: seq<string>)

  datatype HttpService = HttpService(endpoints: Record<HttpEndpoint>)
}
