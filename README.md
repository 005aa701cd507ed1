# Fern ⇄ OpenAPI converters, modelled in Dafny

This project models the two schema translators of Fern's OpenAPI plugins:

- **Export** (`src/convertToOpenApi.ts`). Fern intermediate-representation type declarations (objects, aliases, enums, unions) and type references (primitives, containers, named types, void) become OpenAPI v3 schema objects. Each converted reference carries its `isReqiured` flag.
- **Import of types** (`src/converters/typeConverter.ts`). One named OpenAPI schema object becomes Fern type definitions. The dispatch tests the shape in a fixed order. Inline enums nested inside arrays and properties are hoisted under names synthesised from the capitalised path segments. `$ref`s become type names.
- **Import of HTTP paths** (`src/converters/serviceConverter.ts`). The `paths` object becomes one Fern HTTP service. Endpoints are keyed by `operationId`, each with its response and request type names and its path parameters.

Every thrown error is a `Failure` of the `Result` type in `common.dfy`. A JavaScript object is an ordered sequence of key/value entries. Assigning `obj[k] = v` keeps an existing entry in place with the new value, and otherwise appends the entry. This gives JavaScript's insertion order and last-write-wins behaviour.

Files:

- `common.dfy`: Option, Result, records (Keys, Lookup, Put, PutAll, the MergeEntries loop) and the string primitives `includes` and `replace`.
- `openapi.dfy`: the OpenAPI objects, the IR and Fern's definition schema, cut down to the keys the code reads.
- `convert_to_openapi.dfy`: the export direction.
- `type_converter.dfy`: the type import.
- `service_converter.dfy`: the path import.
- `roundtrip.dfy`: what survives an export followed by an import.

Where the source builds a result in a loop, the model has two parts:

- a method with the same loop, whose `ensures` ties its result to a fold function;
- lemmas that state the source's promises about that fold function.

Recursive case analysis in the source is modelled as functions.

## Model

| member | source | states |
|---|---|---|
| ConvertToOpenApi.ConvertToOpenApiDocument | src/convertToOpenApi.ts:11-13 | The exported entry point yields no document for any IR. |
| ConvertToOpenApi.ConvertPrimitiveType | src/convertToOpenApi.ts:152-193 | Fails exactly on an unknown primitive. Otherwise the result is a scalar schema: no `$ref`, `items` or `properties`, with type boolean, integer, number or string. |
| ConvertToOpenApi.PrimitiveTable | src/convertToOpenApi.ts:152-193 | The seven (type, format) pairs: boolean; integer with no format; integer/int64; number/double; string with no format; string/date-time; string/uuid. |
| ConvertToOpenApi.ConvertTypeReference | src/convertToOpenApi.ts:123-150 | Converts iff every layer of the reference is known. `isReqiured` is false exactly when the outermost layer is `optional`. The tag is "reference" exactly for a named type under any number of `optional` layers, and then the result is `$ref: #/components/schemas/<name>`. |
| ConvertToOpenApi.ConvertContainerType | src/convertToOpenApi.ts:195-237 | The same three facts for a container: it converts iff its element types do, and it is required iff it is not `optional`. |
| ConvertToOpenApi.OptionalIsTransparent | src/convertToOpenApi.ts:227-232 | `optional<T>` yields the same result and tag as `T`, with `isReqiured` false. |
| ConvertToOpenApi.ListAndSetAgree | src/convertToOpenApi.ts:197-216 | `list<T>` and `set<T>` give the same `{type: array, items: convert(T).result}`, and the inner requiredness is dropped. |
| ConvertToOpenApi.MapIgnoresKeyType | src/convertToOpenApi.ts:217-226 | `map<K,V>` does not depend on K and is `{type: object, additionalProperties: convert(V).result}`. |
| ConvertToOpenApi.NamedAndVoid | src/convertToOpenApi.ts:132-147 | A named type becomes its `$ref` and is required; void becomes `{type: object}`. |
| ConvertToOpenApi.ObjectPropertiesOk | src/convertToOpenApi.ts:21-30 | The property loop succeeds iff every field type converts. |
| ConvertToOpenApi.ObjectPropertiesRequired | src/convertToOpenApi.ts:27-29 | `required` lists the keys of the non-optional fields, in field order. |
| ConvertToOpenApi.ObjectPropertiesKeys | src/convertToOpenApi.ts:21-26 | With distinct field keys, the `properties` keys are the field keys in field order. |
| ConvertToOpenApi.ObjectPropertiesValues | src/convertToOpenApi.ts:22-26 | Each field's entry is its converted schema with the field's docs as description. |
| ConvertToOpenApi.PropertyKeysAbsent | src/convertToOpenApi.ts:21-26 | A key that no remaining field has keeps its value. |
| ConvertToOpenApi.ConvertObjectProperties | src/convertToOpenApi.ts:19-30 | The `forEach` loop computes exactly the property fold. |
| ConvertToOpenApi.ExtendsRefs | src/convertToOpenApi.ts:37-41 | One `$ref` per extended type, in order. |
| ConvertToOpenApi.EnumStrings | src/convertToOpenApi.ts:53-55 | One string enum entry per value, in order. |
| ConvertToOpenApi.UnionMembersOk | src/convertToOpenApi.ts:69-107 | A union converts iff every member's type does. |
| ConvertToOpenApi.UnionMembersInOrder | src/convertToOpenApi.ts:69-107 | A union that converts has exactly one `oneOf` entry per member, in member order. |
| ConvertToOpenApi.UnionMemberShapes | src/convertToOpenApi.ts:73-101 | A named member is `allOf [$ref, {type: object, properties: {disc: {type: string, enum: [value]}}}]`. Any other member's discriminant key holds the whole conversion record, never the literal. |
| ConvertToOpenApi.ObjectDeclarationSchema | src/convertToOpenApi.ts:18-43 | An object declaration gives an object schema with the declaration's docs, the required keys, one `allOf` `$ref` per extended type and, under distinct keys, exactly one property per field. |
| ConvertToOpenApi.EnumDeclarationSchema | src/convertToOpenApi.ts:50-57 | An enum gives `{type: string, enum: values in order}` with no description. |
| ConvertToOpenApi.SchemasOk | src/convertToOpenApi.ts:15-67 | Conversion succeeds iff every declaration converts. |
| ConvertToOpenApi.SchemasInOrder | src/convertToOpenApi.ts:15-67 | When conversion succeeds and no shape is unknown, the output has one schema per declaration, and schema `i` is the schema of declaration `i`. |
| ConvertToOpenApi.UnknownShapesSkipped | src/convertToOpenApi.ts:17-65 | A declaration of an unknown shape adds nothing. |
| ConvertToOpenApi.ConvertDeclaration | src/convertToOpenApi.ts:17-65 | The loop body, with its per-shape branches, computes exactly the schema a declaration contributes: none for an unknown shape, a failure when a field or member type does not convert. |
| ConvertToOpenApi.ConvertToSchemas | src/convertToOpenApi.ts:15-67 | The declaration loop computes exactly the schema fold. |
| TypeConverter.GetReferenceObject | src/converters/typeConverter.ts:170-178 | Succeeds with the same object iff it has a `$ref`. |
| TypeConverter.StripsFirstPrefix | src/converters/typeConverter.ts:192-196 | A `$ref` without `#/components/schemas/` is returned whole. Otherwise only the first occurrence of that substring is removed. |
| TypeConverter.RefNameRoundTrip | src/converters/typeConverter.ts:192-196 | `#/components/schemas/<name>` yields `<name>`. |
| TypeConverter.CapitalizeIdempotent | src/converters/typeConverter.ts:199 | `_.capitalize` keeps the length, and applying it twice equals applying it once. |
| TypeConverter.GetTypeNameAppend | src/converters/typeConverter.ts:198-200 | The name of a concatenated hierarchy is the concatenation of the names of its parts. |
| TypeConverter.StringValuesExact | src/converters/typeConverter.ts:29 | The enum filter keeps exactly the string entries and never adds any. |
| TypeConverter.StringValuesAppend | src/converters/typeConverter.ts:29 | The filter distributes over concatenation, so the kept entries stay in order. |
| TypeConverter.EnumFilterExample | src/converters/typeConverter.ts:106 | `["a", 1, "b"]` becomes `["a", "b"]`. |
| TypeConverter.ConvertToFernTypeNested | src/converters/typeConverter.ts:92-147 | A nested conversion hoists at most one definition, and that definition is an enum. |
| TypeConverter.NestedHoistedName | src/converters/typeConverter.ts:97-133 | The hoisted name extends the name of the hierarchy down to the nested schema. |
| TypeConverter.NestedEnum | src/converters/typeConverter.ts:97-109 | A nested enum is named `GetTypeName(hierarchy) + capitalize(name)` and keeps its string values. |
| TypeConverter.NestedArray | src/converters/typeConverter.ts:111-133 | A nested array of inline items recurses with the hierarchy extended by the current name and the segment "Item", and wraps the result in `list<…>`. |
| TypeConverter.NestedFailsUnrecognized | src/converters/typeConverter.ts:110-146 | With no `enum`, the conversion throws for a missing type, an unknown type, `object`, or an array without `items`. |
| TypeConverter.ConvertNonArraySchemaObjectType | src/converters/typeConverter.ts:149-168 | Fails exactly outside boolean/integer/number/string/object. It aliases boolean, integer and string to themselves and number to double, and `object` is the empty object. |
| TypeConverter.ConvertToFernType | src/converters/typeConverter.ts:16-85 | The method, with its property and merge loops, computes exactly the dispatch function. |
| TypeConverter.EmptyAndOneOf | src/converters/typeConverter.ts:23-26 | `{}` gives an empty object. A non-empty schema with `oneOf` gives no definition at all. |
| TypeConverter.TopLevelEnum | src/converters/typeConverter.ts:27-30 | A top-level enum keeps exactly its string values, in order. |
| TypeConverter.TypeBeforeProperties | src/converters/typeConverter.ts:31-57 | `type: object` gives an empty object whatever its `properties` are. |
| TypeConverter.ArrayOfReference | src/converters/typeConverter.ts:32-36 | An array of references gives the single entry `typeName ↦ list<Name>`. An array without items gives no entry. |
| TypeConverter.TopLevelInlineArrayIsDoubled | src/converters/typeConverter.ts:38-44 | An array of inline scalars is aliased to `list<list<scalar>>`, because the array itself is handed to the nested converter. |
| TypeConverter.TopLevelReferenceYieldsNothing | src/converters/typeConverter.ts:23-83 | A bare reference object matches no branch and gives no definition. |
| TypeConverter.PropertyStep | src/converters/typeConverter.ts:62-64 | One pass of the property loop on a reference-valued property: the field becomes the stripped referenced name and nothing is hoisted. The whole `fields` record is given by PropertiesKeys and PropertiesValues. |
| TypeConverter.PropertiesOk | src/converters/typeConverter.ts:60-81 | The property loop succeeds iff every property gets a type name: it is a reference, or the nested converter accepts it. |
| TypeConverter.PropertiesAbsent | src/converters/typeConverter.ts:60-81 | A key that no remaining property has keeps its field. |
| TypeConverter.PropertiesKeys | src/converters/typeConverter.ts:60-81 | With distinct property names, the `fields` keys are the property names in property order, after the fields gathered before. |
| TypeConverter.PropertiesValues | src/converters/typeConverter.ts:61-72 | With distinct property names, each name's field is the stripped referenced name for a reference property, and otherwise the nested converter's type name under the root. |
| TypeConverter.ObjectFields | src/converters/typeConverter.ts:58-82 | The root object has one field per property, in property order, and each field holds that property's type name. |
| TypeConverter.ReferencePropertiesHoistNothing | src/converters/typeConverter.ts:58-81 | If every property is a reference, nothing is hoisted. |
| TypeConverter.PropertiesHoistEnums | src/converters/typeConverter.ts:60-81 | Every definition hoisted from the properties is an enum whose name starts with the capitalised root name. |
| TypeConverter.MergeHoistedUnder | src/converters/typeConverter.ts:73-79 | Merging one property's hoisted definitions keeps that invariant. |
| TypeConverter.RootWrittenLast | src/converters/typeConverter.ts:73-82 | The root object is always present and wins any collision. Every other entry is a hoisted enum named under the root. |
| TypeConverter.CommentsItemName | src/converters/typeConverter.ts:198-200 | The hierarchy Post/comments/Item is named `PostCommentsItem`. |
| TypeConverter.CommentsNested | src/converters/typeConverter.ts:111-133 | Property `comments` of `Post`, an inline array of inline enums, converts to `list<PostCommentsItem>` and hoists that enum. |
| TypeConverter.CommentsExample | src/converters/typeConverter.ts:58-83 | The whole result for that schema is `PostCommentsItem` followed by `Post`. |
| TypeConverter.NestedObjectFails | src/converters/typeConverter.ts:145-146 | An inline array of inline objects under a property throws. |
| Common.MergeEntries | src/converters/typeConverter.ts:46-50 | The `for … of Object.entries` loop computes exactly `PutAll`. |
| Common.PutAllLookup | src/converters/serviceConverter.ts:24-26 | Merging is last-write-wins: a merged key takes the merged value, and other keys keep theirs. |
| Common.PutAllKeys | src/converters/serviceConverter.ts:24-26 | The keys after a merge are the old keys plus the merged ones. |
| Common.RemoveFirst | src/converters/typeConverter.ts:195 | `replace` with a string pattern removes only the first occurrence, and returns the string unchanged when there is none. |
| ServiceConverter.OperationIdOf | src/converters/serviceConverter.ts:155-162 | Succeeds with the id iff it is present. Otherwise fails with MissingOperationId. |
| ServiceConverter.ResponseOf | src/converters/serviceConverter.ts:128-141 | Takes "200" if present, else "201". Fails iff neither is present. |
| ServiceConverter.RequestOf | src/converters/serviceConverter.ts:143-153 | Succeeds with the request body iff there is one. |
| ServiceConverter.ConvertToFernType | src/converters/serviceConverter.ts:164-187 | The early-return scan over content types computes exactly the body function. |
| ServiceConverter.FirstDecisiveEntryDecides | src/converters/serviceConverter.ts:173-184 | The first content type that contains "json" and has a schema decides. A reference gives its name, and an inline schema fails. |
| ServiceConverter.NoDecisiveEntryFails | src/converters/serviceConverter.ts:172-186 | With no such entry the body fails as unconvertible. |
| ServiceConverter.BodyReferenceNamesType | src/converters/serviceConverter.ts:170-186 | A body that is itself a reference yields the referenced name. A body with neither `$ref` nor content fails. |
| ServiceConverter.SchemaToFernParameter | src/converters/serviceConverter.ts:227-250 | Converts iff the type is boolean/integer/number/string. The result is boolean, integer or string for those types and double for number. A missing type and an array fail with their own errors. |
| ServiceConverter.ParameterTypeAgreesWithAlias | src/converters/serviceConverter.ts:227-250 | A parameter's type is exactly the alias the type converter gives a schema of that type. `object` is accepted there and refused here. |
| ServiceConverter.ConvertToFernParameter | src/converters/serviceConverter.ts:205-225 | Non-path parameters, missing schemas and reference schemas each fail with their own error. |
| ServiceConverter.GetFernPathParameters | src/converters/serviceConverter.ts:189-203 | The `forEach` loop computes exactly the parameter fold. Absent `parameters` give `{}`. |
| ServiceConverter.ParametersAcceptedIff | src/converters/serviceConverter.ts:193-201 | The parameters convert iff every one is an inline `in: path` parameter with an inline schema of a scalar type. |
| ServiceConverter.ParametersKeys | src/converters/serviceConverter.ts:200 | The keys are exactly the parameter names. |
| ServiceConverter.ParametersScalar | src/converters/serviceConverter.ts:200 | Every value is boolean, integer, double or string. Which value each name holds is given by ParametersValues. |
| ServiceConverter.ParametersAbsent | src/converters/serviceConverter.ts:193-201 | A name that no remaining parameter has keeps its entry. |
| ServiceConverter.ParametersValues | src/converters/serviceConverter.ts:200 | Each name maps to the converted type of the last parameter with that name. With distinct names, that is the parameter with that name. |
| ServiceConverter.GetFernHttpEndpoint | src/converters/serviceConverter.ts:96-126 | The endpoint is keyed by its operationId, sits at `pathName`, carries the description and `errors: []`, and has the operation's path parameters. When a response is asked for, it is the body type of the 200 (else 201) response. When a request is asked for, it is the body type of the request body. Otherwise each is absent. |
| ServiceConverter.EndpointErrorOrder | src/converters/serviceConverter.ts:103-118 | The checks run in order. A missing operationId fails first. Then, if a response is asked for, a missing 200/201 response fails, and then its body type must convert. Then, if a request is asked for, a missing request body fails. Once these pass, the endpoint converts iff its parameters do. |
| ServiceConverter.MethodFlags | src/converters/serviceConverter.ts:41-84 | GET has a response and no request. POST and PUT have both. DELETE has neither. |
| ServiceConverter.WriteWithoutBodyFails | src/converters/serviceConverter.ts:52-73 | A POST or PUT with an operationId and a response whose body type converts, but with no `requestBody`, fails with MissingRequestBody. |
| ServiceConverter.PatchIsSkipped | src/converters/serviceConverter.ts:85-87 | `patch` never adds an endpoint, and a patch-only path item gives `{}`. |
| ServiceConverter.Operations | src/converters/serviceConverter.ts:41-84 | At most four operations are visited, and a DELETE is always the last. |
| ServiceConverter.OperationsInOrder | src/converters/serviceConverter.ts:41-84 | The visited methods strictly ascend in get, post, put, delete order. The operation of a method is visited exactly when the path item has it. |
| ServiceConverter.ConvertToFernEndpoint | src/converters/serviceConverter.ts:33-89 | The four `if` blocks compute exactly the endpoint fold over the present operations. |
| ServiceConverter.EndpointsFromAppend | src/converters/serviceConverter.ts:41-84 | Converting two runs of operations in sequence is converting their concatenation. |
| ServiceConverter.EndpointsFromEachOk | src/converters/serviceConverter.ts:41-84 | If a path item converts, every one of its operations converts. |
| ServiceConverter.EndpointsUntouched | src/converters/serviceConverter.ts:49-83 | An id no operation carries keeps its endpoint. |
| ServiceConverter.EndpointsLastWins | src/converters/serviceConverter.ts:49-83 | Within a path, the endpoint under an id is that of the last operation with that id. |
| ServiceConverter.DeleteWinsItsId | src/converters/serviceConverter.ts:74-84 | A DELETE operation always owns its id. |
| ServiceConverter.EndpointsDistinct | src/converters/serviceConverter.ts:37-88 | The endpoint record of a path never repeats an id. |
| ServiceConverter.ConvertToFernService | src/converters/serviceConverter.ts:14-31 | The path loop, which skips absent items and merges each path's endpoints, computes exactly the service fold. |
| ServiceConverter.ServiceUntouched | src/converters/serviceConverter.ts:18-27 | An id that no path defines keeps its endpoint. |
| ServiceConverter.ServiceLastPathWins | src/converters/serviceConverter.ts:18-27 | Across paths, the endpoint under an id comes from the last path that defines it. |
| ServiceConverter.GetPostExample | src/converters/serviceConverter.ts:14-126 | `GET /posts/{id}` with id `getPost`, a 200 JSON response referencing `Post` and an integer `id` gives exactly one endpoint: `getPost`, with response `Post`, parameter `id ↦ integer` and no request. |
| RoundTrip.PrimitiveAliasRoundTrip | src/convertToOpenApi.ts:44-49 | An exported primitive alias re-imports as an alias of the primitive's Fern type. The import side is src/converters/typeConverter.ts:149-168. |
| RoundTrip.PrimitiveRoundTripIsExact | src/convertToOpenApi.ts:152-193 | boolean, integer, double and string survive. long comes back as integer, and datetime and uuid come back as string. |
| RoundTrip.EnumValuesRoundTrip | src/convertToOpenApi.ts:53-55 | The importer's string filter (src/converters/typeConverter.ts:29) undoes the exporter's wrapping. |
| RoundTrip.EnumRoundTrip | src/convertToOpenApi.ts:50-57 | An exported enum re-imports as the same enum. |
| RoundTrip.ReferenceRoundTrip | src/convertToOpenApi.ts:132-139 | A named reference re-imports as the same name, and `list<Name>` as `list<Name>`. |
| RoundTrip.ObjectRoundTripLosesFields | src/convertToOpenApi.ts:32-42 | An exported object re-imports as an object with no fields, because the importer tests `type` before `properties` (src/converters/typeConverter.ts:31). |

## Left out

- `console.log` and `console.error` diagnostics are no-ops.
- src/app.ts is not part of this model. It is the driver: it parses files, dumps YAML and prints.
- src/__test__/index.test.ts and the Java CLI with its test are not part of this model.
- JavaScript's ordering of integer-like object keys (such as "200") before other keys is not modelled. Records keep insertion order.
- `_.capitalize` is modelled over ASCII letters only. Unicode case mapping is not modelled.
- `_.isEmpty` is "no key set", over the keys the model carries.
- Reading a record by key is modelled as taking the entry being iterated. Input records from parsed JSON are assumed to have distinct keys, and the key-level lemmas state this as a precondition.
- The `responses` key of an operation is taken as always present, as the OpenAPI types declare it.
- A reference parameter object carries no `name` or `in`. The model gives every parameter those fields, and they are ignored once `$ref` is set.
- ConvertToOpenApi.ConvertToOpenApiDocument: the document builder is a stub in the source, so nothing beyond `convertToSchemas` is exported.
- TypeConverter.ConvertToFernTypeNested: the nested converter is modelled as the code behaves, so an inline object nested under an array or property throws. A nested array of inline objects is never hoisted as a separate declaration.
- ConvertToOpenApi.UnionMemberShapes: a non-named union member is modelled as the code behaves. The discriminant key ends up holding the conversion record, not the literal, and the model does not substitute the named-member encoding.
- Union members and declarations whose type reference cannot be converted throw in the source. The model returns a Failure, with the same effect.
