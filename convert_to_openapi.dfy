/** Export direction: Fern IR type declarations to OpenAPI schema objects
    (src/convertToOpenApi.ts). Type references are converted by pure
    recursion; the per-declaration loop and the per-property loop are
    methods proved against accumulator-style specification functions. */
module ConvertToOpenApi {
  import opened Common
  import opened OpenApi
  import opened Ir

  /** The `type` tag of an `OpenApiTypeConversionResult`. */
  datatype Tag = SchemaTag | ReferenceTag

  /** `{ type, result, isReqiured }` */
  datatype Conversion = Conversion(tag: Tag, result: Schema, isRequired: bool)

  /** An OpenAPI document; the exporter never builds one. */
  datatype Document = Document(schemas: Record<Schema>)

  /** `convertToOpenApi` is a stub: whatever the IR, there is no document. */
  function ConvertToOpenApiDocument(ir: IntermediateRepresentation): (doc: Option<Document>)
    ensures doc == None
  {
    None
  }

  // ---------------------------------------------------------------------
  // Type references
  // ---------------------------------------------------------------------

  /** The reference reaches no unknown kind along the parts the converter
      looks at (a map's key type is never looked at). */
  ghost predicate Convertible(t: TypeReference) {
    match t
    case Primitive(p) => !p.UnknownPrimitive?
    case Container(c) =>
      (match c
       case List(e) => Convertible(e)
       case Set(e) => Convertible(e)
       case Map(_, v) => Convertible(v)
       case Optional(i) => Convertible(i)
       case UnknownContainer(_) => false)
    case Named(_) => true
    case Void => true
    case UnknownReference(_) => false
  }

  /** The reference with every outer `optional` layer removed. */
  ghost function StripOptional(t: TypeReference): TypeReference {
    if IsOptional(t) then StripOptional(t.container.itemType) else t
  }

  function ScalarSchema(schemaType: string, format: Option<string>): Schema {
    EmptySchema.(schemaType := Some(schemaType), format := format)
  }

  /** The fixed primitive table. */
  function ConvertPrimitiveType(p: PrimitiveType): (r: Result<Schema>)
    ensures r.Failure? <==> p.UnknownPrimitive?
    ensures r.Ok? ==> r.value.ref.None? && r.value.items.None? && r.value.properties.None?
    ensures r.Ok? ==> r.value.schemaType.Some? &&
                      r.value.schemaType.value in {"boolean", "integer", "number", "string"}
  {
    match p
    case Boolean => Ok(ScalarSchema("boolean", None))
    case DateTime => Ok(ScalarSchema("string", Some("date-time")))
    case Double => Ok(ScalarSchema("number", Some("double")))
    case Integer => Ok(ScalarSchema("integer", None))
    case Long => Ok(ScalarSchema("integer", Some("int64")))
    case String => Ok(ScalarSchema("string", None))
    case Uuid => Ok(ScalarSchema("string", Some("uuid")))
    case UnknownPrimitive(raw) => Failure(UnknownPrimitiveType(raw))
  }

  /** Each primitive has its fixed (type, format) pair. */
  lemma PrimitiveTable()
    ensures ConvertPrimitiveType(Boolean) == Ok(ScalarSchema("boolean", None))
    ensures ConvertPrimitiveType(Integer) == Ok(ScalarSchema("integer", None))
    ensures ConvertPrimitiveType(Long) == Ok(ScalarSchema("integer", Some("int64")))
    ensures ConvertPrimitiveType(Double) == Ok(ScalarSchema("number", Some("double")))
    ensures ConvertPrimitiveType(String) == Ok(ScalarSchema("string", None))
    ensures ConvertPrimitiveType(DateTime) == Ok(ScalarSchema("string", Some("date-time")))
    ensures ConvertPrimitiveType(Uuid) == Ok(ScalarSchema("string", Some("uuid")))
  {
  }

  function ConvertTypeReference(t: TypeReference): (r: Result<Conversion>)
    ensures r.Ok? <==> Convertible(t)
    ensures r.Ok? ==> (r.value.isRequired <==> !IsOptional(t))
    ensures r.Ok? ==> (r.value.tag == ReferenceTag <==> StripOptional(t).Named?)
    ensures r.Ok? && StripOptional(t).Named? ==> r.value.result == RefSchema(StripOptional(t).name)
    decreases t, 1
  {
    match t
    case Primitive(p) =>
      var s :- ConvertPrimitiveType(p);
      Ok(Conversion(SchemaTag, s, true))
    case Container(c) => ConvertContainerType(c)
    case Named(name) => Ok(Conversion(ReferenceTag, RefSchema(name), true))
    case Void => Ok(Conversion(SchemaTag, EmptySchema.(schemaType := Some("object")), true))
    case UnknownReference(raw) => Failure(UnknownTypeReference(raw))
  }

  function ConvertContainerType(c: ContainerType): (r: Result<Conversion>)
    ensures r.Ok? <==> Convertible(Container(c))
    ensures r.Ok? ==> (r.value.isRequired <==> !c.Optional?)
    ensures r.Ok? ==> (r.value.tag == ReferenceTag <==> StripOptional(Container(c)).Named?)
    ensures r.Ok? && StripOptional(Container(c)).Named? ==>
              r.value.result == RefSchema(StripOptional(Container(c)).name)
    decreases c, 0
  {
    match c
    case List(e) =>
      var inner :- ConvertTypeReference(e);
      Ok(Conversion(SchemaTag, EmptySchema.(schemaType := Some("array"), items := Some(inner.result)), true))
    case Set(e) =>
      var inner :- ConvertTypeReference(e);
      Ok(Conversion(SchemaTag, EmptySchema.(schemaType := Some("array"), items := Some(inner.result)), true))
    case Map(_, v) =>
      var inner :- ConvertTypeReference(v);
      Ok(Conversion(SchemaTag, EmptySchema.(schemaType := Some("object"), additionalProperties := Some(inner.result)), true))
    case Optional(i) =>
      var inner :- ConvertTypeReference(i);
      Ok(inner.(isRequired := false))
    case UnknownContainer(raw) => Failure(UnknownContainerType(raw))
  }

  /** `optional<T>` converts to exactly what `T` converts to, except that it
      is not required. */
  lemma OptionalIsTransparent(t: TypeReference)
    ensures ConvertTypeReference(Container(Optional(t))).Ok? == ConvertTypeReference(t).Ok?
    ensures ConvertTypeReference(t).Ok? ==>
              var o := ConvertTypeReference(Container(Optional(t))).value;
              var c := ConvertTypeReference(t).value;
              o.tag == c.tag && o.result == c.result && !o.isRequired
  {
  }

  /** `list<T>` and `set<T>` give the same array schema, whose items are the
      schema of `T`; whether `T` was required is forgotten. */
  lemma ListAndSetAgree(t: TypeReference)
    requires Convertible(t)
    ensures ConvertTypeReference(Container(List(t))) == ConvertTypeReference(Container(Set(t)))
    ensures ConvertTypeReference(Container(List(t))) ==
            Ok(Conversion(SchemaTag, EmptySchema.(schemaType := Some("array"),
                                                  items := Some(ConvertTypeReference(t).value.result)), true))
    ensures ConvertTypeReference(Container(List(Container(Optional(t))))) ==
            ConvertTypeReference(Container(List(t)))
  {
    assert ConvertTypeReference(Container(Optional(t))) == Ok(ConvertTypeReference(t).value.(isRequired := false));
  }

  /** `map<K, V>` ignores `K` and puts the schema of `V` under
      `additionalProperties`. */
  lemma MapIgnoresKeyType(k1: TypeReference, k2: TypeReference, v: TypeReference)
    requires Convertible(v)
    ensures ConvertTypeReference(Container(Map(k1, v))) == ConvertTypeReference(Container(Map(k2, v)))
    ensures ConvertTypeReference(Container(Map(k1, v))) ==
            Ok(Conversion(SchemaTag, EmptySchema.(schemaType := Some("object"),
                                                  additionalProperties := Some(ConvertTypeReference(v).value.result)), true))
  {
  }

  /** A named type becomes a `$ref` into `#/components/schemas/`, void an
      object schema. */
  lemma NamedAndVoid(name: string)
    ensures ConvertTypeReference(Named(name)) ==
            Ok(Conversion(ReferenceTag, EmptySchema.(ref := Some("#/components/schemas/" + name)), true))
    ensures ConvertTypeReference(Void) == Ok(Conversion(SchemaTag, EmptySchema.(schemaType := Some("object")), true))
  {
  }

  // ---------------------------------------------------------------------
  // Object declarations
  // ---------------------------------------------------------------------

  /** The schema stored for one object property: the converted value type
      with the property's docs as description. */
  function PropertySchema(c: Conversion, p: ObjectProperty): Schema {
    c.result.(description := p.docs)
  }

  /** Lines 21-30 as a fold over the remaining properties, from the
      `properties` record and `requiredKeys` list built so far. */
  function ObjectPropertiesFrom(properties: Record<Schema>, requiredKeys: seq<string>, props: seq<ObjectProperty>)
    : Result<(Record<Schema>, seq<string>)>
    decreases |props|
  {
    if props == [] then Ok((properties, requiredKeys))
    else
      var p := props[0];
      var c :- ConvertTypeReference(p.valueType);
      ObjectPropertiesFrom(Put(properties, p.key, PropertySchema(c, p)),
                           if c.isRequired then requiredKeys + [p.key] else requiredKeys,
                           props[1..])
  }

  /** The keys of the properties that are not outermost-`optional`, in order. */
  function RequiredKeysOf(props: seq<ObjectProperty>): seq<string> {
    if props == [] then []
    else (if IsOptional(props[0].valueType) then [] else [props[0].key]) + RequiredKeysOf(props[1..])
  }

  function PropertyKeys(props: seq<ObjectProperty>): (ks: seq<string>)
    ensures |ks| == |props|
    ensures forall i :: 0 <= i < |props| ==> ks[i] == props[i].key
  {
    if props == [] then [] else [props[0].key] + PropertyKeys(props[1..])
  }

  /** One step of the property fold: it stops at a property whose type
      does not convert and otherwise goes on with that property added. */
  lemma ObjectPropertiesFromStep(properties: Record<Schema>, requiredKeys: seq<string>, props: seq<ObjectProperty>)
    requires props != []
    ensures ConvertTypeReference(props[0].valueType).Failure? ==>
              ObjectPropertiesFrom(properties, requiredKeys, props).Failure?
    ensures ConvertTypeReference(props[0].valueType).Ok? ==>
              var c := ConvertTypeReference(props[0].valueType).value;
              ObjectPropertiesFrom(properties, requiredKeys, props) ==
              ObjectPropertiesFrom(Put(properties, props[0].key, PropertySchema(c, props[0])),
                                   if c.isRequired then requiredKeys + [props[0].key] else requiredKeys,
                                   props[1..])
  {
  }

  /** The property conversion fails exactly when some property's type
      cannot be converted. */
  lemma {:induction false} ObjectPropertiesOk(properties: Record<Schema>, requiredKeys: seq<string>, props: seq<ObjectProperty>)
    ensures ObjectPropertiesFrom(properties, requiredKeys, props).Ok? <==>
            forall i :: 0 <= i < |props| ==> Convertible(props[i].valueType)
    decreases |props|
  {
    if props != [] {
      var p := props[0];
      var c := ConvertTypeReference(p.valueType);
      ObjectPropertiesFromStep(properties, requiredKeys, props);
      if c.Ok? {
        var next := Put(properties, p.key, PropertySchema(c.value, p));
        var rk := if c.value.isRequired then requiredKeys + [p.key] else requiredKeys;
        var rest := props[1..];
        ObjectPropertiesOk(next, rk, rest);
        if forall i :: 0 <= i < |rest| ==> Convertible(rest[i].valueType) {
          forall i | 0 <= i < |props| ensures Convertible(props[i].valueType) {
            if i > 0 {
              assert props[i] == rest[i - 1];
            }
          }
        } else {
          var i :| 0 <= i < |rest| && !Convertible(rest[i].valueType);
          assert rest[i] == props[i + 1];
        }
      } else {
        assert !Convertible(props[0].valueType);
      }
    }
  }

  /** `required` lists the non-optional keys in field order, after the
      keys gathered before. */
  lemma {:induction false} ObjectPropertiesRequired(properties: Record<Schema>, requiredKeys: seq<string>, props: seq<ObjectProperty>)
    requires ObjectPropertiesFrom(properties, requiredKeys, props).Ok?
    ensures ObjectPropertiesFrom(properties, requiredKeys, props).value.1 == requiredKeys + RequiredKeysOf(props)
    decreases |props|
  {
    if props == [] {
      assert requiredKeys + [] == requiredKeys;
    } else {
      var p := props[0];
      var c := ConvertTypeReference(p.valueType).value;
      var head := if IsOptional(p.valueType) then [] else [p.key];
      assert RequiredKeysOf(props) == head + RequiredKeysOf(props[1..]);
      var next := Put(properties, p.key, PropertySchema(c, p));
      var rk := if c.isRequired then requiredKeys + [p.key] else requiredKeys;
      assert rk == requiredKeys + head;
      assert ObjectPropertiesFrom(properties, requiredKeys, props) == ObjectPropertiesFrom(next, rk, props[1..]);
      ObjectPropertiesRequired(next, rk, props[1..]);
      AppendAssoc(requiredKeys, head, RequiredKeysOf(props[1..]));
    }
  }

  /** With distinct field keys that are new to the record, `properties`
      gains one entry per field, in field order. */
  lemma {:induction false} ObjectPropertiesKeys(properties: Record<Schema>, requiredKeys: seq<string>, props: seq<ObjectProperty>)
    requires Distinct(PropertyKeys(props))
    requires forall k :: k in PropertyKeys(props) ==> k !in Keys(properties)
    requires ObjectPropertiesFrom(properties, requiredKeys, props).Ok?
    ensures Keys(ObjectPropertiesFrom(properties, requiredKeys, props).value.0) == Keys(properties) + PropertyKeys(props)
    decreases |props|
  {
    if props == [] {
      assert Keys(properties) + PropertyKeys(props) == Keys(properties);
    } else {
      var p := props[0];
      var c := ConvertTypeReference(p.valueType).value;
      var next := Put(properties, p.key, PropertySchema(c, p));
      var rk := if c.isRequired then requiredKeys + [p.key] else requiredKeys;
      assert ObjectPropertiesFrom(properties, requiredKeys, props) == ObjectPropertiesFrom(next, rk, props[1..]);
      var ks := PropertyKeys(props);
      var ks' := PropertyKeys(props[1..]);
      assert ks == [p.key] + ks';
      assert p.key in ks;
      assert Keys(next) == Keys(properties) + [p.key];
      assert Distinct(ks') by {
        forall i, j | 0 <= i < j < |ks'| ensures ks'[i] != ks'[j] {
          assert ks'[i] == ks[i + 1] && ks'[j] == ks[j + 1];
        }
      }
      assert p.key !in ks' by {
        forall j | 0 <= j < |ks'| ensures ks'[j] != p.key {
          assert ks'[j] == ks[j + 1];
        }
      }
      assert forall k :: k in ks' ==> k in ks;
      ObjectPropertiesKeys(next, rk, props[1..]);
      AppendAssoc(Keys(properties), [p.key], ks');
    }
  }

  /** With distinct field keys, each field's key maps to the field's
      converted schema with the field's docs. */
  lemma {:induction false} ObjectPropertiesValues(properties: Record<Schema>, requiredKeys: seq<string>, props: seq<ObjectProperty>)
    requires Distinct(PropertyKeys(props))
    requires forall i :: 0 <= i < |props| ==> Convertible(props[i].valueType)
    ensures ObjectPropertiesFrom(properties, requiredKeys, props).Ok?
    ensures forall i :: 0 <= i < |props| ==>
              Lookup(ObjectPropertiesFrom(properties, requiredKeys, props).value.0, props[i].key) ==
              Some(PropertySchema(ConvertTypeReference(props[i].valueType).value, props[i]))
    decreases |props|
  {
    ObjectPropertiesOk(properties, requiredKeys, props);
    if props != [] {
      var p := props[0];
      var c := ConvertTypeReference(p.valueType).value;
      var next := Put(properties, p.key, PropertySchema(c, p));
      var rk := if c.isRequired then requiredKeys + [p.key] else requiredKeys;
      var rest := props[1..];
      DistinctKeysTail(props);
      assert forall i :: 0 <= i < |rest| ==> Convertible(rest[i].valueType) by {
        forall i | 0 <= i < |rest| ensures Convertible(rest[i].valueType) {
          assert rest[i] == props[i + 1];
        }
      }
      assert ObjectPropertiesFrom(properties, requiredKeys, props) == ObjectPropertiesFrom(next, rk, rest);
      ObjectPropertiesValues(next, rk, rest);
      PropertyKeysAbsent(next, rk, rest, p.key);
      var out := ObjectPropertiesFrom(properties, requiredKeys, props).value.0;
      forall i | 0 <= i < |props|
        ensures Lookup(out, props[i].key) == Some(PropertySchema(ConvertTypeReference(props[i].valueType).value, props[i]))
      {
        if i > 0 {
          assert props[i] == rest[i - 1];
        }
      }
    }
  }

  /** The tail of a field list with distinct keys has distinct keys, none
      of them the head's. */
  lemma DistinctKeysTail(props: seq<ObjectProperty>)
    requires props != [] && Distinct(PropertyKeys(props))
    ensures Distinct(PropertyKeys(props[1..]))
    ensures props[0].key !in PropertyKeys(props[1..])
  {
    var ks := PropertyKeys(props);
    var tail := PropertyKeys(props[1..]);
    assert forall j :: 0 <= j < |tail| ==> tail[j] == ks[j + 1];
  }

  /** A key not among the remaining fields keeps its value. */
  lemma {:induction false} PropertyKeysAbsent(properties: Record<Schema>, requiredKeys: seq<string>, props: seq<ObjectProperty>, k: string)
    requires k !in PropertyKeys(props)
    requires ObjectPropertiesFrom(properties, requiredKeys, props).Ok?
    ensures Lookup(ObjectPropertiesFrom(properties, requiredKeys, props).value.0, k) == Lookup(properties, k)
    decreases |props|
  {
    if props != [] {
      var p := props[0];
      var c := ConvertTypeReference(p.valueType).value;
      assert PropertyKeys(props) == [p.key] + PropertyKeys(props[1..]);
      PropertyKeysAbsent(Put(properties, p.key, PropertySchema(c, p)),
                         if c.isRequired then requiredKeys + [p.key] else requiredKeys,
                         props[1..], k);
    }
  }

  /** The `forEach` of lines 21-30. */
  method ConvertObjectProperties(props: seq<ObjectProperty>) returns (r: Result<(Record<Schema>, seq<string>)>)
    ensures r == ObjectPropertiesFrom([], [], props)
  {
    var properties: Record<Schema> := [];
    var requiredKeys: seq<string> := [];
    var i := 0;
    while i < |props|
      invariant 0 <= i <= |props|
      invariant ObjectPropertiesFrom([], [], props) == ObjectPropertiesFrom(properties, requiredKeys, props[i..])
    {
      assert props[i..][1..] == props[i + 1..];
      var p := props[i];
      var c := ConvertTypeReference(p.valueType);
      if c.Failure? {
        return Failure(c.error);
      }
      properties := Put(properties, p.key, PropertySchema(c.value, p));
      if c.value.isRequired {
        requiredKeys := requiredKeys + [p.key];
      }
      i := i + 1;
    }
    r := Ok((properties, requiredKeys));
  }

  function ExtendsRefs(names: seq<string>): (refs: seq<Schema>)
    ensures |refs| == |names|
    ensures forall i :: 0 <= i < |names| ==> refs[i] == RefSchema(names[i])
  {
    seq(|names|, i requires 0 <= i < |names| => RefSchema(names[i]))
  }

  function EnumStrings(values: seq<string>): (r: seq<EnumValue>)
    ensures |r| == |values|
    ensures forall i :: 0 <= i < |values| ==> r[i] == EnumString(values[i])
  {
    seq(|values|, i requires 0 <= i < |values| => EnumString(values[i]))
  }

  // ---------------------------------------------------------------------
  // Unions
  // ---------------------------------------------------------------------

  /** `{ type: "string", enum: [discriminantValue] }` */
  function DiscriminantLiteral(value: string): Schema {
    EmptySchema.(schemaType := Some("string"), enumValues := Some([EnumString(value)]))
  }

  /** A conversion record stored verbatim where a schema is expected. */
  function ConversionRecord(c: Conversion): Schema {
    EmptySchema.(schemaType := Some(if c.tag == SchemaTag then "schema" else "reference"),
                 conversionResult := Some(c.result),
                 conversionIsRequired := Some(c.isRequired))
  }

  /** One `oneOf` entry (lines 70-103). */
  function UnionMember(discriminant: string, m: SingleUnionType): Result<Schema> {
    var c :- ConvertTypeReference(m.valueType);
    if m.valueType.Named? then
      Ok(EmptySchema.(
           schemaType := Some("object"),
           allOf := Some([RefSchema(m.valueType.name),
                          EmptySchema.(schemaType := Some("object"),
                                       properties := Some(Put([], discriminant, DiscriminantLiteral(m.discriminantValue))))])))
    else
      var properties := Put([], discriminant, DiscriminantLiteral(m.discriminantValue));
      var properties' := Put(properties, discriminant, ConversionRecord(c));
      Ok(EmptySchema.(schemaType := Some("object"), properties := Some(properties')))
  }

  function UnionMembers(discriminant: string, members: seq<SingleUnionType>): Result<seq<Schema>> {
    if members == [] then Ok([])
    else
      var first :- UnionMember(discriminant, members[0]);
      var rest :- UnionMembers(discriminant, members[1..]);
      Ok([first] + rest)
  }

  function ConvertUnion(discriminant: string, members: seq<SingleUnionType>): Result<Schema> {
    var oneOf :- UnionMembers(discriminant, members);
    Ok(EmptySchema.(oneOf := Some(oneOf)))
  }

  /** A member converts exactly when its value type does. */
  lemma UnionMemberOk(discriminant: string, m: SingleUnionType)
    ensures UnionMember(discriminant, m).Ok? <==> Convertible(m.valueType)
  {
  }

  /** A union converts exactly when every member's value type does. */
  lemma {:induction false} UnionMembersOk(discriminant: string, members: seq<SingleUnionType>)
    ensures UnionMembers(discriminant, members).Ok? <==>
            forall i :: 0 <= i < |members| ==> Convertible(members[i].valueType)
    decreases |members|
  {
    if members != [] {
      var rest := members[1..];
      UnionMemberOk(discriminant, members[0]);
      UnionMembersOk(discriminant, rest);
      if !Convertible(members[0].valueType) {
      } else if forall i :: 0 <= i < |rest| ==> Convertible(rest[i].valueType) {
        forall i | 0 <= i < |members| ensures Convertible(members[i].valueType) {
          if i > 0 {
            assert members[i] == rest[i - 1];
          }
        }
      } else {
        var i :| 0 <= i < |rest| && !Convertible(rest[i].valueType);
        assert rest[i] == members[i + 1];
      }
    }
  }

  /** One step of `UnionMembers` on members that convert. */
  lemma UnionMembersStep(discriminant: string, members: seq<SingleUnionType>)
    requires members != [] && UnionMembers(discriminant, members).Ok?
    ensures UnionMember(discriminant, members[0]).Ok? && UnionMembers(discriminant, members[1..]).Ok?
    ensures UnionMembers(discriminant, members).value ==
            [UnionMember(discriminant, members[0]).value] + UnionMembers(discriminant, members[1..]).value
  {
  }

  /** A union that converts has one `oneOf` entry per member, in member
      order. */
  lemma {:induction false} UnionMembersInOrder(discriminant: string, members: seq<SingleUnionType>)
    requires UnionMembers(discriminant, members).Ok?
    ensures var entries := UnionMembers(discriminant, members).value;
            |entries| == |members| &&
            forall i :: 0 <= i < |members| ==>
              UnionMember(discriminant, members[i]).Ok? && entries[i] == UnionMember(discriminant, members[i]).value
    decreases |members|
  {
    if members != [] {
      var rest := members[1..];
      UnionMembersStep(discriminant, members);
      var first := UnionMember(discriminant, members[0]);
      UnionMembersInOrder(discriminant, rest);
      var entries := UnionMembers(discriminant, members).value;
      forall i | 0 <= i < |members|
        ensures UnionMember(discriminant, members[i]).Ok? && entries[i] == UnionMember(discriminant, members[i]).value
      {
        if i > 0 {
          assert members[i] == rest[i - 1];
        }
      }
    }
  }

  /** A named member is an `allOf` of the `$ref` and an object pinning the
      discriminant to the member's literal value. Any other member binds the
      discriminant key to the whole conversion record: the literal written
      first is overwritten (line 97). */
  lemma UnionMemberShapes(discriminant: string, m: SingleUnionType)
    requires Convertible(m.valueType)
    ensures m.valueType.Named? ==>
              UnionMember(discriminant, m).value.allOf ==
              Some([RefSchema(m.valueType.name),
                    EmptySchema.(schemaType := Some("object"),
                                 properties := Some([(discriminant, DiscriminantLiteral(m.discriminantValue))]))])
    ensures !m.valueType.Named? ==>
              UnionMember(discriminant, m).value.properties ==
              Some([(discriminant, ConversionRecord(ConvertTypeReference(m.valueType).value))])
    ensures !m.valueType.Named? ==>
              Lookup(UnionMember(discriminant, m).value.properties.value, discriminant) !=
              Some(DiscriminantLiteral(m.discriminantValue))
  {
    var literal := DiscriminantLiteral(m.discriminantValue);
    assert Put([], discriminant, literal) == [(discriminant, literal)];
    var record := ConversionRecord(ConvertTypeReference(m.valueType).value);
    assert Put([(discriminant, literal)], discriminant, record) == [(discriminant, record)];
    assert record.schemaType != literal.schemaType;
  }

  // ---------------------------------------------------------------------
  // Declarations
  // ---------------------------------------------------------------------

  /** The schema of one declaration, or `None` for a shape the exporter
      does not know (no branch of the `if` chain pushes anything). */
  function DeclarationSchema(d: TypeDeclaration): Result<Option<Schema>> {
    match d.shape
    case Object(props, extendsNames) =>
      var converted :- ObjectPropertiesFrom([], [], props);
      Ok(Some(EmptySchema.(schemaType := Some("object"),
                           description := d.docs,
                           properties := Some(converted.0),
                           required := Some(converted.1),
                           allOf := Some(ExtendsRefs(extendsNames)))))
    case Alias(aliasOf) =>
      var c :- ConvertTypeReference(aliasOf);
      Ok(Some(c.result.(description := d.docs)))
    case Enum(values) =>
      Ok(Some(EmptySchema.(schemaType := Some("string"), enumValues := Some(EnumStrings(values)))))
    case Union(discriminant, members) =>
      var u :- ConvertUnion(discriminant, members);
      Ok(Some(u.(description := d.docs)))
    case UnknownShape(_) => Ok(None)
  }

  /** An object declaration: an object schema carrying the declaration's
      docs, the converted fields, `required` = the non-optional keys in
      field order, and one `allOf` reference per extended type, in order. */
  lemma ObjectDeclarationSchema(d: TypeDeclaration)
    requires d.shape.Object?
    requires forall i :: 0 <= i < |d.shape.properties| ==> Convertible(d.shape.properties[i].valueType)
    ensures DeclarationSchema(d).Ok? && DeclarationSchema(d).value.Some?
    ensures var s := DeclarationSchema(d).value.value;
            && s.schemaType == Some("object")
            && s.description == d.docs
            && s.required == Some(RequiredKeysOf(d.shape.properties))
            && s.allOf.Some? && |s.allOf.value| == |d.shape.extendsNames|
            && (forall i :: 0 <= i < |d.shape.extendsNames| ==>
                  s.allOf.value[i].ref == Some(RefPrefix + d.shape.extendsNames[i]))
            && s.properties.Some?
            && (Distinct(PropertyKeys(d.shape.properties)) ==>
                  && Keys(s.properties.value) == PropertyKeys(d.shape.properties)
                  && forall i :: 0 <= i < |d.shape.properties| ==>
                       Lookup(s.properties.value, d.shape.properties[i].key) ==
                       Some(ConvertTypeReference(d.shape.properties[i].valueType).value.result.(description := d.shape.properties[i].docs)))
  {
    ObjectPropertiesOk([], [], d.shape.properties);
    ObjectPropertiesRequired([], [], d.shape.properties);
    if Distinct(PropertyKeys(d.shape.properties)) {
      ObjectPropertiesKeys([], [], d.shape.properties);
      ObjectPropertiesValues([], [], d.shape.properties);
      assert Keys<Schema>([]) + PropertyKeys(d.shape.properties) == PropertyKeys(d.shape.properties);
    }
    assert [] + RequiredKeysOf(d.shape.properties) == RequiredKeysOf(d.shape.properties);
  }

  /** An enum declaration: a string schema listing the values in order,
      with no description. */
  lemma EnumDeclarationSchema(d: TypeDeclaration)
    requires d.shape.Enum?
    ensures DeclarationSchema(d).Ok? && DeclarationSchema(d).value.Some?
    ensures var s := DeclarationSchema(d).value.value;
            && s.schemaType == Some("string")
            && s.description == None
            && s.enumValues.Some? && |s.enumValues.value| == |d.shape.values|
            && forall i :: 0 <= i < |d.shape.values| ==> s.enumValues.value[i] == EnumString(d.shape.values[i])
  {
  }

  function OptionToSeq(o: Option<Schema>): seq<Schema> {
    if o.Some? then [o.value] else []
  }

  /** Lines 17-65 as a fold over the remaining declarations, from the
      `result` list built so far. */
  function SchemasFrom(acc: seq<Schema>, types: seq<TypeDeclaration>): Result<seq<Schema>>
    decreases |types|
  {
    if types == [] then Ok(acc)
    else
      var s :- DeclarationSchema(types[0]);
      SchemasFrom(acc + OptionToSeq(s), types[1..])
  }

  /** The declarations convert exactly when each of them does. */
  lemma {:induction false} SchemasOk(acc: seq<Schema>, types: seq<TypeDeclaration>)
    ensures SchemasFrom(acc, types).Ok? <==> forall i :: 0 <= i < |types| ==> DeclarationSchema(types[i]).Ok?
    decreases |types|
  {
    if types != [] {
      var s := DeclarationSchema(types[0]);
      if s.Ok? {
        var rest := types[1..];
        SchemasOk(acc + OptionToSeq(s.value), rest);
        if forall i :: 0 <= i < |rest| ==> DeclarationSchema(rest[i]).Ok? {
          forall i | 0 <= i < |types| ensures DeclarationSchema(types[i]).Ok? {
            if i > 0 {
              assert types[i] == rest[i - 1];
            }
          }
        } else {
          var i :| 0 <= i < |rest| && !DeclarationSchema(rest[i]).Ok?;
          assert rest[i] == types[i + 1];
        }
      }
    }
  }

  /** One step of `SchemasFrom` on declarations that convert. */
  lemma SchemasFromStep(acc: seq<Schema>, types: seq<TypeDeclaration>)
    requires types != [] && SchemasFrom(acc, types).Ok?
    ensures DeclarationSchema(types[0]).Ok?
    ensures SchemasFrom(acc, types) == SchemasFrom(acc + OptionToSeq(DeclarationSchema(types[0]).value), types[1..])
  {
  }

  /** Only an unknown shape yields no schema. */
  lemma UnknownShapeOnlySkipped(d: TypeDeclaration)
    requires DeclarationSchema(d).Ok? && !d.shape.UnknownShape?
    ensures DeclarationSchema(d).value.Some?
    ensures OptionToSeq(DeclarationSchema(d).value) == [DeclarationSchema(d).value.value]
  {
  }

  /** The output keeps the input order: when no declaration fails, the
      schema of declaration `i` is at position `i` of what follows the
      accumulated prefix, and unknown shapes contribute nothing. */
  lemma {:induction false} SchemasInOrder(acc: seq<Schema>, types: seq<TypeDeclaration>)
    requires SchemasFrom(acc, types).Ok?
    requires forall i :: 0 <= i < |types| ==> !types[i].shape.UnknownShape?
    ensures var r := SchemasFrom(acc, types).value;
            |r| == |acc| + |types| && r[..|acc|] == acc &&
            forall i :: 0 <= i < |types| ==>
              DeclarationSchema(types[i]).Ok? && DeclarationSchema(types[i]).value.Some? &&
              r[|acc| + i] == DeclarationSchema(types[i]).value.value
    decreases |types|
  {
    if types != [] {
      SchemasFromStep(acc, types);
      var s := DeclarationSchema(types[0]);
      assert !types[0].shape.UnknownShape?;
      UnknownShapeOnlySkipped(types[0]);
      var acc' := acc + [s.value.value];
      var rest := types[1..];
      assert forall i :: 0 <= i < |rest| ==> !rest[i].shape.UnknownShape? by {
        forall i | 0 <= i < |rest| ensures !rest[i].shape.UnknownShape? {
          assert rest[i] == types[i + 1];
        }
      }
      SchemasInOrder(acc', rest);
      var r := SchemasFrom(acc, types).value;
      assert r[..|acc'|] == acc';
      assert r[..|acc|] == acc by {
        assert r[..|acc|] == r[..|acc'|][..|acc|];
      }
      forall i | 0 <= i < |types|
        ensures DeclarationSchema(types[i]).Ok? && DeclarationSchema(types[i]).value.Some? &&
                r[|acc| + i] == DeclarationSchema(types[i]).value.value
      {
        if i == 0 {
          assert r[|acc|] == acc'[|acc|];
        } else {
          assert types[i] == rest[i - 1];
          assert r[|acc'| + (i - 1)] == DeclarationSchema(rest[i - 1]).value.value;
        }
      }
    }
  }

  /** Every declaration the exporter ignores contributes no schema. */
  lemma {:induction false} UnknownShapesSkipped(acc: seq<Schema>, types: seq<TypeDeclaration>)
    requires forall i :: 0 <= i < |types| ==> types[i].shape.UnknownShape?
    ensures SchemasFrom(acc, types) == Ok(acc)
    decreases |types|
  {
    if types != [] {
      var rest := types[1..];
      forall i | 0 <= i < |rest| ensures rest[i].shape.UnknownShape? {
        assert rest[i] == types[i + 1];
      }
      assert DeclarationSchema(types[0]) == Ok(None);
      assert acc + OptionToSeq(None) == acc;
      UnknownShapesSkipped(acc, rest);
    }
  }

  /** The body of the declaration loop of `convertToSchemas`: the schema
      pushed for one declaration, if any. */
  method ConvertDeclaration(d: TypeDeclaration) returns (r: Result<Option<Schema>>)
    ensures r == DeclarationSchema(d)
  {
    match d.shape {
      case Object(props, extendsNames) =>
        var converted := ConvertObjectProperties(props);
        if converted.Failure? {
          return Failure(converted.error);
        }
        r := Ok(Some(EmptySchema.(schemaType := Some("object"),
                                  description := d.docs,
                                  properties := Some(converted.value.0),
                                  required := Some(converted.value.1),
                                  allOf := Some(ExtendsRefs(extendsNames)))));
      case Alias(aliasOf) =>
        var c := ConvertTypeReference(aliasOf);
        if c.Failure? {
          return Failure(c.error);
        }
        r := Ok(Some(c.value.result.(description := d.docs)));
      case Enum(values) =>
        r := Ok(Some(EmptySchema.(schemaType := Some("string"), enumValues := Some(EnumStrings(values)))));
      case Union(discriminant, members) =>
        var u := ConvertUnion(discriminant, members);
        if u.Failure? {
          return Failure(u.error);
        }
        r := Ok(Some(u.value.(description := d.docs)));
      case UnknownShape(_) =>
        r := Ok(None);
    }
  }

  /** `convertToSchemas` */
  method ConvertToSchemas(types: seq<TypeDeclaration>) returns (r: Result<seq<Schema>>)
    ensures r == SchemasFrom([], types)
  {
    var result: seq<Schema> := [];
    var i := 0;
    while i < |types|
      invariant 0 <= i <= |types|
      invariant SchemasFrom([], types) == SchemasFrom(result, types[i..])
    {
      assert types[i..][1..] == types[i + 1..];
      var schema := ConvertDeclaration(types[i]);
      if schema.Failure? {
        return Failure(schema.error);
      }
      result := result + OptionToSeq(schema.value);
      i := i + 1;
    }
    r := Ok(result);
  }
}
