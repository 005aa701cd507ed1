/** What survives a trip out through the exporter and back in through the
    importer: a declaration converted to an OpenAPI schema by
    `convertToSchemas` and that schema converted back by `convertToFernType`
    under the same name. */
module RoundTrip {
  import opened Common
  import opened OpenApi
  import opened Ir
  import opened FernSchema
  import ConvertToOpenApi
  import TypeConverter

  /** The Fern type a primitive comes back as. */
  function ImportedPrimitive(p: PrimitiveType): string
    requires !p.UnknownPrimitive?
  {
    match p
    case Boolean => "boolean"
    case Integer | Long => "integer"
    case Double => "double"
    case String | DateTime | Uuid => "string"
  }

  /** The exported schema of a declaration that converts. */
  function Exported(d: TypeDeclaration): Schema
    requires ConvertToOpenApi.DeclarationSchema(d).Ok? && ConvertToOpenApi.DeclarationSchema(d).value.Some?
  {
    ConvertToOpenApi.DeclarationSchema(d).value.value
  }

  /** A primitive alias comes back as an alias of the primitive's Fern
      type; the format is dropped, so `long`, `datetime` and `uuid` come
      back as `integer`, `string` and `string`. */
  lemma PrimitiveAliasRoundTrip(name: string, docs: Option<string>, p: PrimitiveType)
    requires !p.UnknownPrimitive?
    ensures var d := TypeDeclaration(name, docs, Alias(Primitive(p)));
            ConvertToOpenApi.DeclarationSchema(d).Ok? && ConvertToOpenApi.DeclarationSchema(d).value.Some? &&
            TypeConverter.FernTypeOf(name, Exported(d)) == Ok([(name, AliasDef(ImportedPrimitive(p)))])
  {
    var d := TypeDeclaration(name, docs, Alias(Primitive(p)));
    var s := Exported(d);
    assert s.schemaType.Some? && !IsEmpty(s);
  }

  /** Exactly the four primitives without a format survive the trip. */
  lemma PrimitiveRoundTripIsExact(p: PrimitiveType)
    requires !p.UnknownPrimitive?
    ensures ImportedPrimitive(p) == ImportedPrimitive(Integer) <==> p == Integer || p == Long
    ensures ImportedPrimitive(p) == ImportedPrimitive(String) <==> p == String || p == DateTime || p == Uuid
    ensures (p == Boolean || p == Integer || p == Double || p == String) <==>
            ConvertToOpenApi.ConvertPrimitiveType(p).value.format.None? || p == Double
  {
  }

  /** The string filter of the importer undoes the string wrapping of the
      exporter. */
  lemma {:induction false} EnumValuesRoundTrip(values: seq<string>)
    ensures TypeConverter.StringValues(ConvertToOpenApi.EnumStrings(values)) == values
    decreases |values|
  {
    if values != [] {
      var e := ConvertToOpenApi.EnumStrings(values);
      assert e == [EnumString(values[0])] + ConvertToOpenApi.EnumStrings(values[1..]) by {
        assert e[1..] == ConvertToOpenApi.EnumStrings(values[1..]);
      }
      TypeConverter.StringValuesAppend([EnumString(values[0])], ConvertToOpenApi.EnumStrings(values[1..]));
      assert TypeConverter.StringValues([EnumString(values[0])]) == [values[0]] by {
        assert [EnumString(values[0])][1..] == [];
      }
      EnumValuesRoundTrip(values[1..]);
    }
  }

  /** An enum declaration comes back as the same enum. */
  lemma EnumRoundTrip(name: string, docs: Option<string>, values: seq<string>)
    ensures var d := TypeDeclaration(name, docs, Enum(values));
            ConvertToOpenApi.DeclarationSchema(d).Ok? && ConvertToOpenApi.DeclarationSchema(d).value.Some? &&
            TypeConverter.FernTypeOf(name, Exported(d)) == Ok([(name, EnumDef(values))])
  {
    var d := TypeDeclaration(name, docs, Enum(values));
    EnumValuesRoundTrip(values);
    assert !IsEmpty(Exported(d));
  }

  /** A named reference comes back as the same name, and an alias of a
      list of a named type comes back as `list<Name>`. */
  lemma ReferenceRoundTrip(name: string, docs: Option<string>, target: string)
    ensures TypeConverter.GetTypeNameFromReferenceObject(ConvertToOpenApi.ConvertTypeReference(Named(target)).value.result) == target
    ensures var d := TypeDeclaration(name, docs, Alias(Container(List(Named(target)))));
            ConvertToOpenApi.DeclarationSchema(d).Ok? && ConvertToOpenApi.DeclarationSchema(d).value.Some? &&
            TypeConverter.FernTypeOf(name, Exported(d)) == Ok([(name, AliasDef("list<" + target + ">"))])
  {
    TypeConverter.RefNameRoundTrip(target);
    var d := TypeDeclaration(name, docs, Alias(Container(List(Named(target)))));
    var list := EmptySchema.(schemaType := Some("array"), items := Some(RefSchema(target)));
    assert ConvertToOpenApi.ConvertTypeReference(Named(target)).value.result == RefSchema(target);
    assert ConvertToOpenApi.ConvertContainerType(List(Named(target))) ==
           Ok(ConvertToOpenApi.Conversion(ConvertToOpenApi.SchemaTag, list, true));
    assert ConvertToOpenApi.DeclarationSchema(d) == Ok(Some(list.(description := docs)));
    var s := Exported(d);
    assert s.items == Some(RefSchema(target));
    assert s.schemaType == Some("array") && !IsEmpty(s);
  }

  /** An object declaration comes back as an object with no fields: the
      exporter sets `type: "object"`, and the importer tests `type` before
      `properties`. */
  lemma ObjectRoundTripLosesFields(name: string, docs: Option<string>, props: seq<ObjectProperty>, extendsNames: seq<string>)
    requires forall i :: 0 <= i < |props| ==> ConvertToOpenApi.Convertible(props[i].valueType)
    ensures var d := TypeDeclaration(name, docs, Object(props, extendsNames));
            ConvertToOpenApi.DeclarationSchema(d).Ok? && ConvertToOpenApi.DeclarationSchema(d).value.Some? &&
            TypeConverter.FernTypeOf(name, Exported(d)) == Ok([(name, EmptyObject)])
  {
    var d := TypeDeclaration(name, docs, Object(props, extendsNames));
    ConvertToOpenApi.ObjectDeclarationSchema(d);
    TypeConverter.TypeBeforeProperties(name, Exported(d));
  }
}
