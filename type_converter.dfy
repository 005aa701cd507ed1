/** Import direction for types: one named OpenAPI schema object to Fern type
    definitions (src/converters/typeConverter.ts). The nested converter is
    pure recursion; `convertToFernType` builds its result record in loops
    and is a method proved against the specification function `FernTypeOf`. */
module TypeConverter {
  import opened Common
  import opened OpenApi
  import opened FernSchema

  // ---------------------------------------------------------------------
  // Reference helpers (shared with the service converter)
  // ---------------------------------------------------------------------

  predicate IsReferenceObject(s: Schema) {
    s.ref.Some?
  }

  predicate IsSchemaObject(s: Schema) {
    s.ref.None?
  }

  /** A schema coerced to a reference object, or a failure. */
  function GetReferenceObject(s: Schema): (r: Result<Schema>)
    ensures r.Ok? <==> IsReferenceObject(s)
    ensures r.Ok? ==> r.value == s
  {
    if IsReferenceObject(s) then Ok(s) else Failure(NotAReference)
  }

  /** `$ref.replace("#/components/schemas/", "")` */
  function GetTypeNameFromReferenceObject(s: Schema): string
    requires IsReferenceObject(s)
  {
    RemoveFirst(s.ref.value, RefPrefix)
  }

  /** The name is the `$ref` with its first `#/components/schemas/` taken
      out; a `$ref` without that substring is kept whole. */
  lemma StripsFirstPrefix(s: Schema)
    requires IsReferenceObject(s)
    ensures !Includes(s.ref.value, RefPrefix) ==> GetTypeNameFromReferenceObject(s) == s.ref.value
    ensures Includes(s.ref.value, RefPrefix) ==>
              exists i :: 0 <= i <= |s.ref.value| - |RefPrefix| &&
                          s.ref.value == s.ref.value[..i] + RefPrefix + s.ref.value[i + |RefPrefix|..] &&
                          GetTypeNameFromReferenceObject(s) == s.ref.value[..i] + s.ref.value[i + |RefPrefix|..] &&
                          forall m :: 0 <= m < i ==> !OccursAt(s.ref.value, RefPrefix, m)
  {
    var ref := s.ref.value;
    if Includes(ref, RefPrefix) {
      var i := IndexOf(ref, RefPrefix).value;
      assert ref[i..i + |RefPrefix|] == RefPrefix;
      assert ref == ref[..i] + ref[i..i + |RefPrefix|] + ref[i + |RefPrefix|..];
    }
  }

  /** A reference written as `#/components/schemas/<name>` yields `<name>`. */
  lemma {:induction false} RefNameRoundTrip(name: string)
    ensures GetTypeNameFromReferenceObject(RefSchema(name)) == name
  {
    var ref := RefPrefix + name;
    assert OccursAt(ref, RefPrefix, 0) by {
      assert ref[0..|RefPrefix|] == RefPrefix;
    }
    var i := IndexOf(ref, RefPrefix).value;
    assert i == 0;
    assert ref[|RefPrefix|..] == name;
  }

  // ---------------------------------------------------------------------
  // Name synthesis
  // ---------------------------------------------------------------------

  function UpperChar(c: char): char {
    if 'a' <= c <= 'z' then (c as int - 32) as char else c
  }

  function LowerChar(c: char): char {
    if 'A' <= c <= 'Z' then (c as int + 32) as char else c
  }

  function LowerAll(s: string): (r: string)
    ensures |r| == |s|
    ensures forall i :: 0 <= i < |s| ==> r[i] == LowerChar(s[i])
  {
    seq(|s|, i requires 0 <= i < |s| => LowerChar(s[i]))
  }

  /** lodash `_.capitalize` over ASCII: the first character upper-cased,
      the rest lower-cased. */
  function Capitalize(s: string): string {
    if s == [] then [] else [UpperChar(s[0])] + LowerAll(s[1..])
  }

  /** Capitalizing keeps the length, and capitalizing twice changes
      nothing more. */
  lemma CapitalizeIdempotent(s: string)
    ensures |Capitalize(s)| == |s|
    ensures Capitalize(Capitalize(s)) == Capitalize(s)
  {
    if s != [] {
      var c := Capitalize(s);
      assert c[1..] == LowerAll(s[1..]);
      assert Capitalize(c) == [UpperChar(c[0])] + LowerAll(c[1..]);
    }
  }

  /** `getTypeName`: the capitalized segments, concatenated in order. */
  function GetTypeName(hierarchy: seq<string>): string {
    if hierarchy == [] then "" else Capitalize(hierarchy[0]) + GetTypeName(hierarchy[1..])
  }

  /** The name of a longer hierarchy extends the name of its prefix. */
  lemma {:induction false} GetTypeNameAppend(a: seq<string>, b: seq<string>)
    ensures GetTypeName(a + b) == GetTypeName(a) + GetTypeName(b)
    decreases |a|
  {
    if a != [] {
      assert (a + b)[0] == a[0];
      assert (a + b)[1..] == a[1..] + b;
      GetTypeNameAppend(a[1..], b);
      AppendAssoc(Capitalize(a[0]), GetTypeName(a[1..]), GetTypeName(b));
    } else {
      assert a + b == b;
    }
  }

  lemma GetTypeNameSnoc(hierarchy: seq<string>, segment: string)
    ensures GetTypeName(hierarchy + [segment]) == GetTypeName(hierarchy) + Capitalize(segment)
  {
    GetTypeNameAppend(hierarchy, [segment]);
    assert GetTypeName([segment]) == Capitalize(segment) + GetTypeName([]);
  }

  // ---------------------------------------------------------------------
  // Enums
  // ---------------------------------------------------------------------

  /** `enum.filter((value) => typeof value === "string")` */
  function StringValues(values: seq<EnumValue>): seq<string> {
    if values == [] then []
    else (if values[0].EnumString? then [values[0].s] else []) + StringValues(values[1..])
  }

  /** Filtering distributes over concatenation, so it keeps the order of
      the kept values. */
  lemma {:induction false} StringValuesAppend(a: seq<EnumValue>, b: seq<EnumValue>)
    ensures StringValues(a + b) == StringValues(a) + StringValues(b)
    decreases |a|
  {
    if a == [] {
      assert a + b == b;
    } else {
      assert (a + b)[1..] == a[1..] + b;
      StringValuesAppend(a[1..], b);
    }
  }

  /** Exactly the string entries survive: a value is kept iff it was a
      string entry, and no more entries come out than went in. */
  lemma {:induction false} StringValuesExact(values: seq<EnumValue>)
    ensures |StringValues(values)| <= |values|
    ensures forall x :: x in StringValues(values) <==> EnumString(x) in values
    decreases |values|
  {
    if values != [] {
      StringValuesExact(values[1..]);
      assert values == [values[0]] + values[1..];
    }
  }

  /** `["a", 1, "b"]` becomes `["a", "b"]`. */
  lemma EnumFilterExample()
    ensures StringValues([EnumString("a"), EnumOther, EnumString("b")]) == ["a", "b"]
  {
    var vs := [EnumString("a"), EnumOther, EnumString("b")];
    assert vs[1..][1..][1..] == [];
  }

  // ---------------------------------------------------------------------
  // Nested schemas
  // ---------------------------------------------------------------------

  datatype NestedResult = NestedResult(convertedTypeName: string, newTypeDefinitions: Registry)

  /** `"list<" + name + ">"` */
  function ListOf(name: string): string {
    "list<" + name + ">"
  }

  predicate HasPrefix(s: string, prefix: string) {
    |prefix| <= |s| && s[..|prefix|] == prefix
  }

  /** `convertToFernTypeNested`: a nested schema becomes a type-reference
      string; an inline enum is hoisted under the hierarchy's name. At most
      one definition is hoisted, and it is an enum. */
  function ConvertToFernTypeNested(hierarchy: seq<string>, schemaName: string, s: Schema): (r: Result<NestedResult>)
    ensures r.Ok? ==> |r.value.newTypeDefinitions| <= 1
    ensures r.Ok? ==> forall e :: e in r.value.newTypeDefinitions ==> e.1.EnumDef?
    decreases s
  {
    if s.enumValues.Some? then
      var enumTypeName := GetTypeName(hierarchy + [schemaName]);
      Ok(NestedResult(enumTypeName, [(enumTypeName, EnumDef(StringValues(s.enumValues.value)))]))
    else if s.schemaType.Some? then
      if s.schemaType.value == "array" then
        if s.items.Some? then
          if IsReferenceObject(s.items.value) then
            Ok(NestedResult(ListOf(GetTypeNameFromReferenceObject(s.items.value)), []))
          else
            var inner :- ConvertToFernTypeNested(hierarchy + [schemaName], "Item", s.items.value);
            Ok(NestedResult(ListOf(inner.convertedTypeName), inner.newTypeDefinitions))
        else Failure(UnrecognizedNestedSchema)
      else if s.schemaType.value == "boolean" then Ok(NestedResult("boolean", []))
      else if s.schemaType.value == "integer" then Ok(NestedResult("integer", []))
      else if s.schemaType.value == "number" then Ok(NestedResult("double", []))
      else if s.schemaType.value == "string" then Ok(NestedResult("string", []))
      else Failure(UnrecognizedNestedSchema)
    else Failure(UnrecognizedNestedSchema)
  }

  /** A hoisted definition is named after the hierarchy down to the
      nested schema, followed by one "Item" per array level. */
  lemma {:induction false} NestedHoistedName(hierarchy: seq<string>, schemaName: string, s: Schema)
    requires ConvertToFernTypeNested(hierarchy, schemaName, s).Ok?
    ensures forall e :: e in ConvertToFernTypeNested(hierarchy, schemaName, s).value.newTypeDefinitions ==>
              HasPrefix(e.0, GetTypeName(hierarchy + [schemaName]))
    decreases s
  {
    if s.enumValues.None? && s.schemaType == Some("array") && s.items.Some? && !IsReferenceObject(s.items.value) {
      var h := hierarchy + [schemaName];
      NestedHoistedName(h, "Item", s.items.value);
      GetTypeNameSnoc(h, "Item");
      var defs := ConvertToFernTypeNested(hierarchy, schemaName, s).value.newTypeDefinitions;
      assert defs == ConvertToFernTypeNested(h, "Item", s.items.value).value.newTypeDefinitions;
      forall e | e in defs ensures HasPrefix(e.0, GetTypeName(h)) {
        PrefixOfPrefix(e.0, GetTypeName(h), Capitalize("Item"));
      }
    }
  }

  /** A nested schema with no `enum` and no recognised `type` fails: an
      inline object, a schema without `type`, an array without `items`. */
  lemma NestedFailsUnrecognized(hierarchy: seq<string>, schemaName: string, s: Schema)
    requires s.enumValues.None?
    requires s.schemaType.None? ||
             s.schemaType.value !in {"array", "boolean", "integer", "number", "string"} ||
             (s.schemaType.value == "array" && s.items.None?)
    ensures ConvertToFernTypeNested(hierarchy, schemaName, s) == Failure(UnrecognizedNestedSchema)
  {
  }

  /** A nested enum is hoisted under the hierarchy plus its own name and
      keeps only its string values. */
  lemma NestedEnum(hierarchy: seq<string>, schemaName: string, s: Schema)
    requires s.enumValues.Some?
    ensures var name := GetTypeName(hierarchy) + Capitalize(schemaName);
            ConvertToFernTypeNested(hierarchy, schemaName, s) ==
            Ok(NestedResult(name, [(name, EnumDef(StringValues(s.enumValues.value)))]))
  {
    GetTypeNameSnoc(hierarchy, schemaName);
  }

  /** A nested array of inline items recurses with the hierarchy extended
      by the current name and the segment "Item", and wraps the result in
      `list<...>`. */
  lemma NestedArray(hierarchy: seq<string>, schemaName: string, s: Schema)
    requires s.enumValues.None? && s.schemaType == Some("array")
    requires s.items.Some? && !IsReferenceObject(s.items.value)
    ensures var inner := ConvertToFernTypeNested(hierarchy + [schemaName], "Item", s.items.value);
            ConvertToFernTypeNested(hierarchy, schemaName, s) ==
            if inner.Failure? then Failure(inner.error)
            else Ok(NestedResult(ListOf(inner.value.convertedTypeName), inner.value.newTypeDefinitions))
  {
  }

  /** `convertNonArraySchemaObjectType` */
  function ConvertNonArraySchemaObjectType(schemaType: string): (r: Result<TypeDefinition>)
    ensures r.Failure? <==> schemaType !in {"boolean", "integer", "number", "string", "object"}
    ensures r.Ok? && schemaType != "object" ==> r.value == AliasDef(ScalarName(schemaType))
    ensures r.Ok? && schemaType == "object" ==> r.value == EmptyObject
  {
    if schemaType == "boolean" then Ok(AliasDef("boolean"))
    else if schemaType == "integer" then Ok(AliasDef("integer"))
    else if schemaType == "number" then Ok(AliasDef("double"))
    else if schemaType == "string" then Ok(AliasDef("string"))
    else if schemaType == "object" then Ok(EmptyObject)
    else Failure(UnknownNonArrayType(schemaType))
  }

  // ---------------------------------------------------------------------
  // Top-level conversion
  // ---------------------------------------------------------------------

  /** Lines 60-81 as a fold over the remaining properties, from the
      object's `fields` and the hoisted definitions gathered so far. */
  function PropertiesFrom(typeName: string, fields: Record<string>, hoisted: Registry, props: Record<Schema>)
    : Result<(Record<string>, Registry)>
    decreases |props|
  {
    if props == [] then Ok((fields, hoisted))
    else
      var name := props[0].0;
      var p := props[0].1;
      if IsReferenceObject(p) then
        PropertiesFrom(typeName, Put(fields, name, GetTypeNameFromReferenceObject(p)), hoisted, props[1..])
      else
        var nested :- ConvertToFernTypeNested([typeName], name, p);
        PropertiesFrom(typeName, Put(fields, name, nested.convertedTypeName),
                       PutAll(hoisted, nested.newTypeDefinitions), props[1..])
  }

  /** `convertToFernType`, as a function: the dispatch tests, in order,
      emptiness, `oneOf`, `enum`, `type` and `properties`. */
  function FernTypeOf(typeName: string, s: Schema): Result<Registry> {
    if IsEmpty(s) then Ok([(typeName, EmptyObject)])
    else if s.oneOf.Some? then Ok([])
    else if s.enumValues.Some? then Ok([(typeName, EnumDef(StringValues(s.enumValues.value)))])
    else if s.schemaType.Some? then
      if s.schemaType.value == "array" then
        if s.items.None? then Ok([])
        else if IsReferenceObject(s.items.value) then
          Ok([(typeName, AliasDef(ListOf(GetTypeNameFromReferenceObject(s.items.value))))])
        else
          // The array schema itself, not its items, is handed down.
          var nested :- ConvertToFernTypeNested([typeName], "Item", s);
          Ok(PutAll([(typeName, AliasDef(ListOf(nested.convertedTypeName)))], nested.newTypeDefinitions))
      else
        var d :- ConvertNonArraySchemaObjectType(s.schemaType.value);
        Ok([(typeName, d)])
    else if s.properties.Some? then
      var converted :- PropertiesFrom(typeName, [], [], s.properties.value);
      Ok(Put(converted.1, typeName, ObjectDef(converted.0)))
    else Ok([])
  }

  /** `convertToFernType` */
  method ConvertToFernType(typeName: string, s: Schema) returns (r: Result<Registry>)
    ensures r == FernTypeOf(typeName, s)
  {
    var typeDefinitions: Registry := [];
    if IsEmpty(s) {
      typeDefinitions := Put(typeDefinitions, typeName, EmptyObject);
    } else if s.oneOf.Some? {
      // skipped with a log line
    } else if s.enumValues.Some? {
      typeDefinitions := Put(typeDefinitions, typeName, EnumDef(StringValues(s.enumValues.value)));
    } else if s.schemaType.Some? {
      if s.schemaType.value == "array" {
        if s.items.Some? {
          if IsReferenceObject(s.items.value) {
            typeDefinitions := Put(typeDefinitions, typeName, AliasDef(ListOf(GetTypeNameFromReferenceObject(s.items.value))));
          } else {
            var nested := ConvertToFernTypeNested([typeName], "Item", s);
            if nested.Failure? {
              return Failure(nested.error);
            }
            typeDefinitions := Put(typeDefinitions, typeName, AliasDef(ListOf(nested.value.convertedTypeName)));
            typeDefinitions := MergeEntries(typeDefinitions, nested.value.newTypeDefinitions);
          }
        }
      } else {
        var d := ConvertNonArraySchemaObjectType(s.schemaType.value);
        if d.Failure? {
          return Failure(d.error);
        }
        typeDefinitions := Put(typeDefinitions, typeName, d.value);
      }
    } else if s.properties.Some? {
      var props := s.properties.value;
      var fields: Record<string> := [];
      var i := 0;
      while i < |props|
        invariant 0 <= i <= |props|
        invariant PropertiesFrom(typeName, [], [], props) == PropertiesFrom(typeName, fields, typeDefinitions, props[i..])
      {
        assert props[i..][1..] == props[i + 1..];
        var name := props[i].0;
        var p := props[i].1;
        if IsReferenceObject(p) {
          fields := Put(fields, name, GetTypeNameFromReferenceObject(p));
        } else {
          var nested := ConvertToFernTypeNested([typeName], name, p);
          if nested.Failure? {
            return Failure(nested.error);
          }
          fields := Put(fields, name, nested.value.convertedTypeName);
          typeDefinitions := MergeEntries(typeDefinitions, nested.value.newTypeDefinitions);
        }
        i := i + 1;
      }
      typeDefinitions := Put(typeDefinitions, typeName, ObjectDef(fields));
    }
    r := Ok(typeDefinitions);
  }

  // ---------------------------------------------------------------------
  // Properties of the dispatch
  // ---------------------------------------------------------------------

  /** `{}` becomes an empty object; a non-empty schema with `oneOf` yields
      no definition at all. */
  lemma EmptyAndOneOf(typeName: string, s: Schema)
    ensures FernTypeOf(typeName, EmptySchema) == Ok([(typeName, EmptyObject)])
    ensures !IsEmpty(s) && s.oneOf.Some? ==> FernTypeOf(typeName, s) == Ok([])
  {
  }

  /** A top-level enum keeps exactly its string values, in order. */
  lemma TopLevelEnum(typeName: string, s: Schema)
    requires !IsEmpty(s) && s.oneOf.None? && s.enumValues.Some?
    ensures FernTypeOf(typeName, s) == Ok([(typeName, EnumDef(StringValues(s.enumValues.value)))])
    ensures forall x :: x in StringValues(s.enumValues.value) <==> EnumString(x) in s.enumValues.value
  {
    StringValuesExact(s.enumValues.value);
  }

  /** `type` is tested before `properties`: `type: "object"` yields an
      empty object whatever its properties are. */
  lemma TypeBeforeProperties(typeName: string, s: Schema)
    requires s.oneOf.None? && s.enumValues.None? && s.schemaType == Some("object")
    ensures FernTypeOf(typeName, s) == Ok([(typeName, EmptyObject)])
  {
  }

  /** An array of references is one alias `list<Name>`; an array without
      `items` yields nothing. */
  lemma ArrayOfReference(typeName: string, s: Schema, name: string)
    requires s.oneOf.None? && s.enumValues.None? && s.schemaType == Some("array")
    ensures s.items.None? ==> FernTypeOf(typeName, s) == Ok([])
    ensures s.items == Some(RefSchema(name)) ==>
              FernTypeOf(typeName, s) == Ok([(typeName, AliasDef("list<" + name + ">"))])
  {
    if s.items == Some(RefSchema(name)) {
      RefNameRoundTrip(name);
    }
  }

  /** The Fern name of a scalar schema type: `number` is a `double`. */
  function ScalarName(schemaType: string): string {
    if schemaType == "number" then "double" else schemaType
  }

  /** A top-level array of inline scalars is aliased to a list of lists:
      the array schema itself is converted as its own item. */
  lemma TopLevelInlineArrayIsDoubled(typeName: string, s: Schema, itemType: string)
    requires s.oneOf.None? && s.enumValues.None? && s.schemaType == Some("array")
    requires itemType in {"boolean", "integer", "number", "string"}
    requires s.items.Some? && !IsReferenceObject(s.items.value)
    requires s.items.value.enumValues.None? && s.items.value.schemaType == Some(itemType)
    ensures FernTypeOf(typeName, s) == Ok([(typeName, AliasDef(ListOf(ListOf(ScalarName(itemType)))))])
  {
    var inner := ConvertToFernTypeNested([typeName, "Item"], "Item", s.items.value);
    assert inner == Ok(NestedResult(ScalarName(itemType), []));
    assert ConvertToFernTypeNested([typeName], "Item", s) == Ok(NestedResult(ListOf(ScalarName(itemType)), []));
  }

  /** A top-level reference object has none of the keys the dispatch tests
      and yields nothing. */
  lemma TopLevelReferenceYieldsNothing(typeName: string, name: string)
    ensures FernTypeOf(typeName, RefSchema(name)) == Ok([])
  {
  }

  /** A reference-valued property becomes the referenced name and hoists
      nothing; an inline property is converted under the root's name. */
  lemma PropertyStep(typeName: string, fields: Record<string>, hoisted: Registry, props: Record<Schema>)
    requires props != []
    ensures IsReferenceObject(props[0].1) ==>
              PropertiesFrom(typeName, fields, hoisted, props) ==
              PropertiesFrom(typeName, Put(fields, props[0].0, GetTypeNameFromReferenceObject(props[0].1)), hoisted, props[1..])
    ensures IsReferenceObject(props[0].1) && props[0].1.ref == Some(RefPrefix + props[0].0) ==>
              GetTypeNameFromReferenceObject(props[0].1) == props[0].0
  {
    if IsReferenceObject(props[0].1) && props[0].1.ref == Some(RefPrefix + props[0].0) {
      RefNameRoundTrip(props[0].0);
      assert RefSchema(props[0].0).ref == props[0].1.ref;
    }
  }

  /** The type name one property gets in the object's `fields`: the
      referenced name for a reference, otherwise the name the nested
      converter gives it under the root. */
  function FieldTypeName(typeName: string, name: string, p: Schema): Result<string> {
    if IsReferenceObject(p) then Ok(GetTypeNameFromReferenceObject(p))
    else
      var nested :- ConvertToFernTypeNested([typeName], name, p);
      Ok(nested.convertedTypeName)
  }

  /** The hoisted definitions after one property that gets a type name. */
  function HoistedAfter(typeName: string, hoisted: Registry, name: string, p: Schema): Registry
    requires FieldTypeName(typeName, name, p).Ok?
  {
    if IsReferenceObject(p) then hoisted
    else PutAll(hoisted, ConvertToFernTypeNested([typeName], name, p).value.newTypeDefinitions)
  }

  /** One step of the property fold, in terms of `FieldTypeName`. */
  lemma PropertiesFromStep(typeName: string, fields: Record<string>, hoisted: Registry, props: Record<Schema>)
    requires props != []
    ensures FieldTypeName(typeName, props[0].0, props[0].1).Failure? ==>
              PropertiesFrom(typeName, fields, hoisted, props).Failure?
    ensures FieldTypeName(typeName, props[0].0, props[0].1).Ok? ==>
              PropertiesFrom(typeName, fields, hoisted, props) ==
              PropertiesFrom(typeName, Put(fields, props[0].0, FieldTypeName(typeName, props[0].0, props[0].1).value),
                             HoistedAfter(typeName, hoisted, props[0].0, props[0].1), props[1..])
  {
  }

  /** The property loop succeeds exactly when every property gets a type
      name. */
  lemma {:induction false} PropertiesOk(typeName: string, fields: Record<string>, hoisted: Registry, props: Record<Schema>)
    ensures PropertiesFrom(typeName, fields, hoisted, props).Ok? <==>
            forall i :: 0 <= i < |props| ==> FieldTypeName(typeName, props[i].0, props[i].1).Ok?
    decreases |props|
  {
    if props != [] {
      var rest := props[1..];
      var t := FieldTypeName(typeName, props[0].0, props[0].1);
      PropertiesFromStep(typeName, fields, hoisted, props);
      if t.Ok? {
        var hoisted' := HoistedAfter(typeName, hoisted, props[0].0, props[0].1);
        PropertiesOk(typeName, Put(fields, props[0].0, t.value), hoisted', rest);
        if forall i :: 0 <= i < |rest| ==> FieldTypeName(typeName, rest[i].0, rest[i].1).Ok? {
          forall i | 0 <= i < |props| ensures FieldTypeName(typeName, props[i].0, props[i].1).Ok? {
            if i > 0 {
              assert props[i] == rest[i - 1];
            }
          }
        } else {
          var i :| 0 <= i < |rest| && !FieldTypeName(typeName, rest[i].0, rest[i].1).Ok?;
          assert rest[i] == props[i + 1];
        }
      }
    }
  }

  /** A key that no remaining property has keeps its field. */
  lemma {:induction false} PropertiesAbsent(typeName: string, fields: Record<string>, hoisted: Registry, props: Record<Schema>, k: string)
    requires k !in Keys(props)
    requires PropertiesFrom(typeName, fields, hoisted, props).Ok?
    ensures Lookup(PropertiesFrom(typeName, fields, hoisted, props).value.0, k) == Lookup(fields, k)
    decreases |props|
  {
    if props != [] {
      var t := FieldTypeName(typeName, props[0].0, props[0].1);
      PropertiesFromStep(typeName, fields, hoisted, props);
      var hoisted' := HoistedAfter(typeName, hoisted, props[0].0, props[0].1);
      ConsFacts(props[0], props[1..]);
      assert props == [props[0]] + props[1..];
      PropertiesAbsent(typeName, Put(fields, props[0].0, t.value), hoisted', props[1..], k);
    }
  }

  /** The tail of a record with distinct keys has distinct keys, none of
      them the head's. */
  lemma DistinctTail<V>(r: Record<V>)
    requires r != [] && Distinct(Keys(r))
    ensures Distinct(Keys(r[1..]))
    ensures r[0].0 !in Keys(r[1..])
  {
    var ks := Keys(r);
    var tail := Keys(r[1..]);
    forall i, j | 0 <= i < j < |tail| ensures tail[i] != tail[j] {
      assert tail[i] == ks[i + 1] && tail[j] == ks[j + 1];
    }
    forall j | 0 <= j < |tail| ensures tail[j] != r[0].0 {
      assert tail[j] == ks[j + 1];
    }
  }

  /** With distinct property names, the object's `fields` keep the
      properties' order after the fields gathered before. */
  lemma {:induction false} PropertiesKeys(typeName: string, fields: Record<string>, hoisted: Registry, props: Record<Schema>)
    requires Distinct(Keys(props))
    requires forall k :: k in Keys(props) ==> k !in Keys(fields)
    requires PropertiesFrom(typeName, fields, hoisted, props).Ok?
    ensures Keys(PropertiesFrom(typeName, fields, hoisted, props).value.0) == Keys(fields) + Keys(props)
    decreases |props|
  {
    if props == [] {
      assert Keys(fields) + Keys(props) == Keys(fields);
    } else {
      var name := props[0].0;
      var t := FieldTypeName(typeName, name, props[0].1);
      var rest := props[1..];
      PropertiesFromStep(typeName, fields, hoisted, props);
      var hoisted' := HoistedAfter(typeName, hoisted, props[0].0, props[0].1);
      var next := Put(fields, name, t.value);
      ConsFacts(props[0], rest);
      assert props == [props[0]] + rest;
      assert Keys(next) == Keys(fields) + [name];
      DistinctTail(props);
      PropertiesKeys(typeName, next, hoisted', rest);
      AppendAssoc(Keys(fields), [name], Keys(rest));
    }
  }

  /** With distinct property names, each name's field is the type name
      its property gets: the referenced name, or the nested type name. */
  lemma {:induction false} PropertiesValues(typeName: string, fields: Record<string>, hoisted: Registry, props: Record<Schema>)
    requires Distinct(Keys(props))
    requires PropertiesFrom(typeName, fields, hoisted, props).Ok?
    ensures forall i :: 0 <= i < |props| ==>
              FieldTypeName(typeName, props[i].0, props[i].1).Ok? &&
              Lookup(PropertiesFrom(typeName, fields, hoisted, props).value.0, props[i].0) ==
              Some(FieldTypeName(typeName, props[i].0, props[i].1).value)
    decreases |props|
  {
    PropertiesOk(typeName, fields, hoisted, props);
    if props != [] {
      var name := props[0].0;
      var t := FieldTypeName(typeName, name, props[0].1);
      var rest := props[1..];
      PropertiesFromStep(typeName, fields, hoisted, props);
      var hoisted' := HoistedAfter(typeName, hoisted, props[0].0, props[0].1);
      var next := Put(fields, name, t.value);
      DistinctTail(props);
      PropertiesValues(typeName, next, hoisted', rest);
      PropertiesAbsent(typeName, next, hoisted', rest, name);
      var out := PropertiesFrom(typeName, fields, hoisted, props).value.0;
      forall i | 0 <= i < |props|
        ensures Lookup(out, props[i].0) == Some(FieldTypeName(typeName, props[i].0, props[i].1).value)
      {
        if i > 0 {
          assert props[i] == rest[i - 1];
        }
      }
    }
  }

  /** The object built from `properties`: one field per property, in
      property order, each the referenced name or the nested type name. */
  lemma ObjectFields(typeName: string, s: Schema)
    requires !IsEmpty(s) && s.oneOf.None? && s.enumValues.None? && s.schemaType.None? && s.properties.Some?
    requires Distinct(Keys(s.properties.value))
    requires FernTypeOf(typeName, s).Ok?
    ensures exists fields :: Lookup(FernTypeOf(typeName, s).value, typeName) == Some(ObjectDef(fields)) &&
              Keys(fields) == Keys(s.properties.value) &&
              forall i :: 0 <= i < |s.properties.value| ==>
                var (n, p) := s.properties.value[i];
                FieldTypeName(typeName, n, p).Ok? && Lookup(fields, n) == Some(FieldTypeName(typeName, n, p).value)
  {
    var props := s.properties.value;
    var fields := PropertiesFrom(typeName, [], [], props).value.0;
    RootWrittenLast(typeName, s);
    PropertiesKeys(typeName, [], [], props);
    assert Keys<string>([]) + Keys(props) == Keys(props);
    PropertiesValues(typeName, [], [], props);
  }

  /** Every definition hoisted out of the properties is an enum whose name
      extends the capitalized root name. */
  lemma {:induction false} PropertiesHoistEnums(typeName: string, fields: Record<string>, hoisted: Registry, props: Record<Schema>)
    requires HoistedUnder(hoisted, Capitalize(typeName))
    requires PropertiesFrom(typeName, fields, hoisted, props).Ok?
    ensures HoistedUnder(PropertiesFrom(typeName, fields, hoisted, props).value.1, Capitalize(typeName))
    decreases |props|
  {
    if props != [] {
      var name := props[0].0;
      var p := props[0].1;
      if IsReferenceObject(p) {
        PropertiesHoistEnums(typeName, Put(fields, name, GetTypeNameFromReferenceObject(p)), hoisted, props[1..]);
      } else {
        var nested := ConvertToFernTypeNested([typeName], name, p).value;
        var merged := PutAll(hoisted, nested.newTypeDefinitions);
        var fields' := Put(fields, name, nested.convertedTypeName);
        assert PropertiesFrom(typeName, fields, hoisted, props) == PropertiesFrom(typeName, fields', merged, props[1..]);
        MergeHoistedUnder(typeName, name, p, hoisted);
        PropertiesHoistEnums(typeName, fields', merged, props[1..]);
      }
    }
  }

  /** All entries are enums named under `prefix`. */
  predicate HoistedUnder(defs: Registry, prefix: string) {
    forall e :: e in defs ==> e.1.EnumDef? && HasPrefix(e.0, prefix)
  }

  /** A name starting with `a + b` starts with `a`. */
  lemma PrefixOfPrefix(s: string, a: string, b: string)
    requires HasPrefix(s, a + b)
    ensures HasPrefix(s, a)
  {
    assert s[..|a|] == (a + b)[..|a|];
  }

  /** One inline property's hoisted definitions, merged in, keep every
      entry an enum named under the root. */
  lemma MergeHoistedUnder(typeName: string, name: string, p: Schema, hoisted: Registry)
    requires HoistedUnder(hoisted, Capitalize(typeName))
    requires ConvertToFernTypeNested([typeName], name, p).Ok?
    ensures HoistedUnder(PutAll(hoisted, ConvertToFernTypeNested([typeName], name, p).value.newTypeDefinitions), Capitalize(typeName))
  {
    var defs := ConvertToFernTypeNested([typeName], name, p).value.newTypeDefinitions;
    var root := Capitalize(typeName);
    NestedHoistedName([typeName], name, p);
    GetTypeNameSnoc([typeName], name);
    assert GetTypeName([typeName]) == root + GetTypeName([]);
    assert GetTypeName([typeName] + [name]) == root + Capitalize(name);
    forall e | e in PutAll(hoisted, defs) ensures e.1.EnumDef? && HasPrefix(e.0, root) {
      PutAllMember(hoisted, defs, e);
      if e in defs {
        PrefixOfPrefix(e.0, root, Capitalize(name));
      }
    }
  }

  /** In the `properties` branch the root object is written last: it is
      always present and wins over any hoisted definition of the same
      name; every other definition is a hoisted enum named under the root. */
  lemma RootWrittenLast(typeName: string, s: Schema)
    requires !IsEmpty(s) && s.oneOf.None? && s.enumValues.None? && s.schemaType.None? && s.properties.Some?
    requires FernTypeOf(typeName, s).Ok?
    ensures var converted := PropertiesFrom(typeName, [], [], s.properties.value).value;
            Lookup(FernTypeOf(typeName, s).value, typeName) == Some(ObjectDef(converted.0))
    ensures forall e :: e in FernTypeOf(typeName, s).value && e.0 != typeName ==>
              e.1.EnumDef? && HasPrefix(e.0, Capitalize(typeName))
  {
    var converted := PropertiesFrom(typeName, [], [], s.properties.value).value;
    PropertiesHoistEnums(typeName, [], [], s.properties.value);
    assert HoistedUnder(converted.1, Capitalize(typeName));
    var r := FernTypeOf(typeName, s).value;
    assert r == Put(converted.1, typeName, ObjectDef(converted.0));
    forall e | e in r && e.0 != typeName ensures e.1.EnumDef? && HasPrefix(e.0, Capitalize(typeName)) {
      PutMember(converted.1, typeName, ObjectDef(converted.0), e);
    }
  }

  /** An object whose properties are all references is one object
      definition and nothing else. */
  lemma {:induction false} ReferencePropertiesHoistNothing(typeName: string, fields: Record<string>, hoisted: Registry, props: Record<Schema>)
    requires forall i :: 0 <= i < |props| ==> IsReferenceObject(props[i].1)
    ensures PropertiesFrom(typeName, fields, hoisted, props).Ok?
    ensures PropertiesFrom(typeName, fields, hoisted, props).value.1 == hoisted
    decreases |props|
  {
    if props != [] {
      var rest := props[1..];
      forall i | 0 <= i < |rest| ensures IsReferenceObject(rest[i].1) {
        assert rest[i] == props[i + 1];
      }
      ReferencePropertiesHoistNothing(typeName, Put(fields, props[0].0, GetTypeNameFromReferenceObject(props[0].1)), hoisted, rest);
    }
  }

  /** Capitalizing a word whose tail is already lower case only
      upper-cases its first letter. */
  lemma CapitalizeLowerWord(s: string)
    requires s != []
    requires forall i :: 1 <= i < |s| ==> !('A' <= s[i] <= 'Z')
    ensures Capitalize(s) == [UpperChar(s[0])] + s[1..]
  {
    assert LowerAll(s[1..]) == s[1..];
  }

  /** The name of a three-level hierarchy. */
  lemma GetTypeNameOfThree(a: string, b: string, c: string)
    ensures GetTypeName([a, b, c]) == Capitalize(a) + (Capitalize(b) + Capitalize(c))
  {
    assert [a, b, c][1..] == [b, c];
    assert [b, c][1..] == [c];
    assert [c][1..] == [];
    assert GetTypeName([c]) == Capitalize(c) + "";
    assert Capitalize(c) + "" == Capitalize(c);
  }

  /** The three words of the `comments` example, capitalized. */
  lemma CommentsWords()
    ensures Capitalize("Post") == "Post"
    ensures Capitalize("comments") == "Comments"
    ensures Capitalize("Item") == "Item"
  {
    CapitalizeLowerWord("Post");
    CapitalizeLowerWord("comments");
    CapitalizeLowerWord("Item");
    assert UpperChar('c') == 'C';
  }

  /** The name hoisted for the items of the `comments` property of `Post`. */
  lemma CommentsItemName()
    ensures GetTypeName(["Post", "comments", "Item"]) == "PostCommentsItem"
  {
    GetTypeNameOfThree("Post", "comments", "Item");
    CommentsWords();
    CommentsItemSpelling();
  }

  lemma CommentsItemSpelling()
    ensures "Post" + ("Comments" + "Item") == "PostCommentsItem"
  {
    assert "Comments" + "Item" == "CommentsItem";
    assert "Post" + "CommentsItem" == "PostCommentsItem";
  }

  /** A nested array of inline enums is a list of an enum hoisted under
      the hierarchy, the array's name and "Item". */
  lemma NestedArrayOfEnum(hierarchy: seq<string>, schemaName: string, values: seq<EnumValue>)
    ensures var items := EmptySchema.(enumValues := Some(values));
            var name := GetTypeName(hierarchy + [schemaName, "Item"]);
            ConvertToFernTypeNested(hierarchy, schemaName, EmptySchema.(schemaType := Some("array"), items := Some(items))) ==
            Ok(NestedResult(ListOf(name), [(name, EnumDef(StringValues(values)))]))
  {
    var items := EmptySchema.(enumValues := Some(values));
    var h := hierarchy + [schemaName];
    assert !IsReferenceObject(items);
    NestedArray(hierarchy, schemaName, EmptySchema.(schemaType := Some("array"), items := Some(items)));
    NestedEnum(h, "Item", items);
    GetTypeNameSnoc(h, "Item");
    assert h + ["Item"] == hierarchy + [schemaName, "Item"];
  }

  /** The `comments` array of inline enums, nested under `Post`. */
  lemma CommentsNested(values: seq<EnumValue>)
    ensures var items := EmptySchema.(enumValues := Some(values));
            var comments := EmptySchema.(schemaType := Some("array"), items := Some(items));
            ConvertToFernTypeNested(["Post"], "comments", comments) ==
            Ok(NestedResult("list<PostCommentsItem>", [("PostCommentsItem", EnumDef(StringValues(values)))]))
  {
    NestedArrayOfEnum(["Post"], "comments", values);
    assert ["Post"] + ["comments", "Item"] == ["Post", "comments", "Item"];
    CommentsItemName();
    CommentsListName();
  }

  lemma CommentsListName()
    ensures ListOf("PostCommentsItem") == "list<PostCommentsItem>"
  {
    assert "list<" + "PostCommentsItem" == "list<PostCommentsItem";
  }

  /** The properties of a root `Post` whose property `comments` is an
      inline array of inline string enums: `comments` becomes
      `list<PostCommentsItem>`, with the enum hoisted beside it. */
  lemma CommentsProperties(values: seq<EnumValue>)
    ensures var items := EmptySchema.(enumValues := Some(values));
            var comments := EmptySchema.(schemaType := Some("array"), items := Some(items));
            PropertiesFrom("Post", [], [], [("comments", comments)]) ==
            Ok(([("comments", "list<PostCommentsItem>")], [("PostCommentsItem", EnumDef(StringValues(values)))]))
  {
    var items := EmptySchema.(enumValues := Some(values));
    var comments := EmptySchema.(schemaType := Some("array"), items := Some(items));
    var props := [("comments", comments)];
    var defs: Registry := [("PostCommentsItem", EnumDef(StringValues(values)))];
    CommentsNested(values);
    assert PutAll([], defs) == defs by {
      assert defs[..0] == [];
    }
    assert props[1..] == [];
  }

  /** The root object of that `Post` schema is written after the hoisted
      enum. */
  lemma CommentsRoot(values: seq<EnumValue>)
    ensures var items := EmptySchema.(enumValues := Some(values));
            var comments := EmptySchema.(schemaType := Some("array"), items := Some(items));
            FernTypeOf("Post", EmptySchema.(properties := Some([("comments", comments)]))) ==
            Ok(Put([("PostCommentsItem", EnumDef(StringValues(values)))], "Post",
                   ObjectDef([("comments", "list<PostCommentsItem>")])))
  {
    var items := EmptySchema.(enumValues := Some(values));
    var comments := EmptySchema.(schemaType := Some("array"), items := Some(items));
    var s := EmptySchema.(properties := Some([("comments", comments)]));
    CommentsProperties(values);
    assert !IsEmpty(s) && s.oneOf.None? && s.enumValues.None? && s.schemaType.None?;
  }

  /** Root `Post` whose property `comments` is an inline array of inline
      string enums: the conversion hoists `PostCommentsItem` before the
      root object. */
  lemma CommentsExample(values: seq<EnumValue>)
    ensures var items := EmptySchema.(enumValues := Some(values));
            var comments := EmptySchema.(schemaType := Some("array"), items := Some(items));
            FernTypeOf("Post", EmptySchema.(properties := Some([("comments", comments)]))) ==
            Ok([("PostCommentsItem", EnumDef(StringValues(values))),
                ("Post", ObjectDef([("comments", "list<PostCommentsItem>")]))])
  {
    CommentsRoot(values);
    PutAfterHoisted(("PostCommentsItem", EnumDef(StringValues(values))), "Post",
                    ObjectDef([("comments", "list<PostCommentsItem>")]));
  }

  /** A root stored after one hoisted definition of another name comes
      second. */
  lemma PutAfterHoisted(hoisted: (string, TypeDefinition), typeName: string, d: TypeDefinition)
    requires hoisted.0 != typeName
    ensures Put([hoisted], typeName, d) == [hoisted, (typeName, d)]
  {
    assert Keys([hoisted]) == [hoisted.0];
    PutFresh([hoisted], typeName, d);
  }

  /** An inline array of inline objects under a property fails: a nested
      object is not a recognised nested schema. */
  lemma NestedObjectFails()
    ensures var items := EmptySchema.(schemaType := Some("object"));
            var comments := EmptySchema.(schemaType := Some("array"), items := Some(items));
            FernTypeOf("Post", EmptySchema.(properties := Some([("comments", comments)]))).Failure?
  {
    var items := EmptySchema.(schemaType := Some("object"));
    var comments := EmptySchema.(schemaType := Some("array"), items := Some(items));
    var props := [("comments", comments)];
    assert ConvertToFernTypeNested(["Post", "comments"], "Item", items).Failure?;
    assert ConvertToFernTypeNested(["Post"], "comments", comments).Failure?;
    assert PropertiesFrom("Post", [], [], props).Failure?;
    assert !IsEmpty(EmptySchema.(properties := Some(props)));
  }
}
