/**
 * The repository's worked example: the Transaction model with its nested
 * Product and Promotion, and the six fields the dynamic mapping is built
 * from.
 */
module TransactionFixture {
  import opened Wrappers
  import opened TypeModel
  import opened DottedNames
  import opened Program

  /** Transaction's declared properties, and those of Product and
   *  Promotion as their class maps name them. */
  const TransactionSchema: Schema := map[
    "Transaction" := TransactionProperties,
    "Product" := ProductProperties,
    "Promotion" := PromotionProperties
  ]

  const TransactionProperties: map<string, Ty> :=
    map["Product" := Named("Product"), "Promotion" := Named("Promotion"), "TransactionId" := Int]

  const ProductProperties: map<string, Ty> := map["Name" := Str, "Sku" := Str, "Description" := Str]

  const PromotionProperties: map<string, Ty> := map["Date" := DateTime, "Price" := Dec]

  const Transaction: Ty := Named("Transaction")

  function Field(columnIndex: int, alias: string, name: string): UserDefinedFieldForCsvMapper
  {
    UserDefinedFieldForCsvMapper(columnIndex, Some(alias), Some(name))
  }

  /** Program._fieldsForMapper */
  const FieldsForMapper: seq<UserDefinedFieldForCsvMapper> := [
    Field(1, "transactionid", "TransactionId"),
    Field(2, "product_name", "Product.Name"),
    Field(3, "product_sku", "Product.Sku"),
    Field(4, "product_description", "Product.Description"),
    Field(5, "promotion_date", "Promotion.Date"),
    Field(6, "promotion_price", "Promotion.Price")
  ]

  /** No two fields of the example share a name (their lengths differ). */
  lemma FieldNamesAreDistinct(fields: seq<UserDefinedFieldForCsvMapper>)
    requires fields == FieldsForMapper
    ensures forall j, k :: 0 <= j < k < |fields| ==> fields[j].fieldName != fields[k].fieldName
  {
    assert forall k :: 0 <= k < |fields| ==> |fields[k].fieldName.value| == [13, 12, 11, 19, 14, 15][k];
  }

  /** Every field of the example is found first at its own position and is
   *  unique, so it keeps its own alias and column and is not ignored. */
  lemma LookupsOfField(fields: seq<UserDefinedFieldForCsvMapper>, k: nat)
    requires fields == FieldsForMapper && k < |fields|
    ensures fields[k].fieldName.Some?
    ensures var name := fields[k].fieldName.value;
            && GetUserDefinedFieldName(fields, name) == fields[k].fieldAlias
            && GetIndex(fields, name) == fields[k].columnIndex
            && !ShouldIgnore(fields, name)
  {
    FieldNamesAreDistinct(fields);
    var name := fields[k].fieldName.value;
    assert IsFirstMatch(fields, k, name);
    UniqueNameIsNotIgnored(fields, k);
  }

  /** The member maps each field of the example yields on its own. */
  const ExpectedMaps: seq<seq<MemberMap>> := [
    [MemberMap(["TransactionId"], Int, Some("transactionid"), false, 1)],
    [MemberMap(["Product", "Name"], Str, Some("product_name"), false, 2)],
    [MemberMap(["Product", "Sku"], Str, Some("product_sku"), false, 3)],
    [MemberMap(["Product", "Description"], Str, Some("product_description"), false, 4)],
    [MemberMap(["Promotion", "Date"], DateTime, Some("promotion_date"), false, 5)],
    []
  ]

  /** Field k is named "owner.member", with its one '.' at i; it is not a
   *  direct property of the model, owner is one of type ownerType, whose
   *  member is of type leaf; and the field is found first at k and is
   *  unique in the list. */
  predicate NestedAt(schema: Schema, model: Ty, fields: seq<UserDefinedFieldForCsvMapper>, k: nat, i: nat,
                     owner: string, member: string, ownerType: Ty, leaf: Ty)
  {
    && k < |fields| && fields[k].fieldName.Some?
    && var name := fields[k].fieldName.value;
       && i < |name| && name[i] == Dot && name[..i] == owner && name[i + 1..] == member
       && Dot !in owner && Dot !in member
       && name !in Properties(schema, model)
       && GetProperty(schema, model, owner) == Some(ownerType)
       && GetProperty(schema, ownerType, member) == Some(leaf)
       && GetUserDefinedFieldName(fields, name) == fields[k].fieldAlias
       && GetIndex(fields, name) == fields[k].columnIndex
       && !ShouldIgnore(fields, name)
  }

  /** A field nested as NestedAt says yields one member map when the leaf
   *  is a string or a DateTime, under the field's alias and column, and
   *  none otherwise, provided no class has a case clash. */
  lemma TwoSegmentField(schema: Schema, model: Ty, fields: seq<UserDefinedFieldForCsvMapper>, k: nat, i: nat,
                        owner: string, member: string, ownerType: Ty, leaf: Ty)
    requires CaseDistinct(schema)
    requires NestedAt(schema, model, fields, k, i, owner, member, ownerType, leaf)
    ensures MapsFor(schema, model, fields, fields[k]) ==
            Ok(if leaf == Str || leaf == DateTime
               then [MemberMap([owner, member], leaf, fields[k].fieldAlias, false, fields[k].columnIndex)]
               else [])
  {
    var name := fields[k].fieldName.value;
    var segments := [owner, member];
    SplitOnce(name, Dot, i);
    assert segments[1..] == [member];
    assert ResolveOwner(schema, model, segments) == Some(ownerType);
    ExactPathResolvesIgnoringCase(schema, model, segments);
    assert ResolvePathIgnoringCase(schema, model, segments) == Ok(Resolved(segments, ownerType, leaf));
    NestedFieldMapsOnlyStringOrDateTime(schema, model, fields, fields[k]);
    var r := MapsFor(schema, model, fields, fields[k]);
    assert r.Ok?;
    if |r.value| == 1 {
      assert r.value == [r.value[0]];
    } else {
      assert r.value == [];
    }
  }

  /** The nested fields of the example name a property of a property: one
   *  '.' after the owner's name, then the member's. */
  lemma NameOfField(fields: seq<UserDefinedFieldForCsvMapper>, k: nat, i: nat, owner: string, member: string)
    requires fields == FieldsForMapper && 0 < k < |fields|
    requires owner == (if k <= 3 then "Product" else "Promotion") && i == |owner|
    requires member == ["Name", "Sku", "Description", "Date", "Price"][k - 1]
    ensures fields[k].fieldName.Some?
    ensures var name := fields[k].fieldName.value;
            i < |name| && name[i] == Dot && name[..i] == owner && name[i + 1..] == member
    ensures Dot !in owner && Dot !in member
  {
    var name := fields[k].fieldName.value;
    if k == 1 {
      assert name == "Product.Name";
    } else if k == 2 {
      assert name == "Product.Sku";
    } else if k == 3 {
      assert name == "Product.Description";
    } else if k == 4 {
      assert name == "Promotion.Date";
    } else {
      assert name == "Promotion.Price";
    }
    assert name[..i] == owner;
    assert name[i + 1..] == member;
  }

  /** No dotted name of the example is a direct property of Transaction:
   *  the lengths differ from those of its three property names. */
  lemma NotADirectProperty(schema: Schema, fields: seq<UserDefinedFieldForCsvMapper>, k: nat)
    requires schema == TransactionSchema && fields == FieldsForMapper && 0 < k < |fields|
    ensures fields[k].fieldName.Some? && fields[k].fieldName.value !in Properties(schema, Transaction)
  {
    assert Properties(schema, Transaction).Keys == {"TransactionId", "Product", "Promotion"};
    assert |fields[k].fieldName.value| == [13, 12, 11, 19, 14, 15][k];
  }

  /** The five nested fields of the example, each as NestedAt says. */
  lemma NestedFieldOfExample(schema: Schema, fields: seq<UserDefinedFieldForCsvMapper>, k: nat, i: nat,
                             owner: string, member: string, ownerType: Ty, leaf: Ty)
    requires schema == TransactionSchema && fields == FieldsForMapper && 0 < k < |fields|
    requires owner == (if k <= 3 then "Product" else "Promotion") && i == |owner| && ownerType == Named(owner)
    requires member == ["Name", "Sku", "Description", "Date", "Price"][k - 1]
    requires leaf == [Str, Str, Str, DateTime, Dec][k - 1]
    ensures NestedAt(schema, Transaction, fields, k, i, owner, member, ownerType, leaf)
  {
    LookupsOfField(fields, k);
    NotADirectProperty(schema, fields, k);
    NameOfField(fields, k, i, owner, member);
    MemberOfExample(schema, k, owner, member, leaf);
  }

  /** The owner of the example's nested field k is a property of
   *  Transaction, and its member one of the owner's. */
  lemma MemberOfExample(schema: Schema, k: nat, owner: string, member: string, leaf: Ty)
    requires schema == TransactionSchema && 0 < k < 6
    requires owner == (if k <= 3 then "Product" else "Promotion")
    requires member == ["Name", "Sku", "Description", "Date", "Price"][k - 1]
    requires leaf == [Str, Str, Str, DateTime, Dec][k - 1]
    ensures GetProperty(schema, Transaction, owner) == Some(Named(owner))
    ensures GetProperty(schema, Named(owner), member) == Some(leaf)
  {
    SchemaOfExample(schema);
    if k == 1 {
      assert member == "Name" && leaf == Str;
    } else if k == 2 {
      assert member == "Sku" && leaf == Str;
    } else if k == 3 {
      assert member == "Description" && leaf == Str;
    } else if k == 4 {
      assert member == "Date" && leaf == DateTime;
    } else {
      assert member == "Price" && leaf == Dec;
    }
  }

  /** Property names of different lengths cannot differ only in case. */
  lemma DistinctLengthsAreCaseDistinct(props: map<string, Ty>)
    requires forall a, b :: a in props && b in props && |a| == |b| ==> a == b
    ensures CaseDistinctProperties(props)
  {
    forall a, b | a in props && b in props && SameIgnoringCase(a, b)
      ensures a == b
    {
      SameIgnoringCaseLength(a, b);
    }
  }

  /** Within each class of the example the property names differ in
   *  length. */
  lemma ClassNamesDifferInLength(props: map<string, Ty>)
    requires props == TransactionProperties || props == ProductProperties || props == PromotionProperties
    ensures forall a, b :: a in props && b in props && |a| == |b| ==> a == b
  {
    if props == TransactionProperties {
      assert props.Keys == {"Product", "Promotion", "TransactionId"};
    } else if props == ProductProperties {
      assert props.Keys == {"Name", "Sku", "Description"};
    } else {
      assert props.Keys == {"Date", "Price"};
    }
  }

  /** No class of the example declares two properties whose names differ
   *  only in case. */
  lemma SchemaIsCaseDistinct(schema: Schema)
    requires schema == TransactionSchema
    ensures CaseDistinct(schema)
  {
    forall n | n in schema
      ensures CaseDistinctProperties(schema[n])
    {
      assert n == "Transaction" || n == "Product" || n == "Promotion";
      ClassNamesDifferInLength(schema[n]);
      DistinctLengthsAreCaseDistinct(schema[n]);
    }
  }

  /** What the example's schema declares. */
  lemma SchemaOfExample(schema: Schema)
    requires schema == TransactionSchema
    ensures GetProperty(schema, Transaction, "TransactionId") == Some(Int)
    ensures GetProperty(schema, Transaction, "Product") == Some(Named("Product"))
    ensures GetProperty(schema, Transaction, "Promotion") == Some(Named("Promotion"))
    ensures GetProperty(schema, Named("Product"), "Name") == Some(Str)
    ensures GetProperty(schema, Named("Product"), "Sku") == Some(Str)
    ensures GetProperty(schema, Named("Product"), "Description") == Some(Str)
    ensures GetProperty(schema, Named("Promotion"), "Date") == Some(DateTime)
    ensures GetProperty(schema, Named("Promotion"), "Price") == Some(Dec)
  {
  }

  // Each field of the example, on its own, yields ExpectedMaps[k]. The
  // schema and the list are parameters equal to the example's constants,
  // which keeps the verifier from evaluating the resolvers on literals.

  /** TransactionId is a direct int property: mapped with no type check. */
  lemma TransactionIdField(schema: Schema, fields: seq<UserDefinedFieldForCsvMapper>)
    requires schema == TransactionSchema && fields == FieldsForMapper
    ensures MapsFor(schema, Transaction, fields, fields[0]) == Ok(ExpectedMaps[0])
  {
    SchemaOfExample(schema);
    LookupsOfField(fields, 0);
    assert fields[0].fieldName == Some("TransactionId");
    FlatFieldYieldsOneMap(schema, Transaction, fields, fields[0]);
  }

  /** Product.Name is a nested string: one member map. */
  lemma ProductNameField(schema: Schema, fields: seq<UserDefinedFieldForCsvMapper>)
    requires schema == TransactionSchema && fields == FieldsForMapper
    ensures MapsFor(schema, Transaction, fields, fields[1]) == Ok(ExpectedMaps[1])
  {
    NestedFieldOfExample(schema, fields, 1, 7, "Product", "Name", Named("Product"), Str);
    SchemaIsCaseDistinct(schema);
    TwoSegmentField(schema, Transaction, fields, 1, 7, "Product", "Name", Named("Product"), Str);
  }

  /** Product.Sku is a nested string: one member map. */
  lemma ProductSkuField(schema: Schema, fields: seq<UserDefinedFieldForCsvMapper>)
    requires schema == TransactionSchema && fields == FieldsForMapper
    ensures MapsFor(schema, Transaction, fields, fields[2]) == Ok(ExpectedMaps[2])
  {
    NestedFieldOfExample(schema, fields, 2, 7, "Product", "Sku", Named("Product"), Str);
    SchemaIsCaseDistinct(schema);
    TwoSegmentField(schema, Transaction, fields, 2, 7, "Product", "Sku", Named("Product"), Str);
  }

  /** Product.Description is a nested string: one member map. */
  lemma ProductDescriptionField(schema: Schema, fields: seq<UserDefinedFieldForCsvMapper>)
    requires schema == TransactionSchema && fields == FieldsForMapper
    ensures MapsFor(schema, Transaction, fields, fields[3]) == Ok(ExpectedMaps[3])
  {
    NestedFieldOfExample(schema, fields, 3, 7, "Product", "Description", Named("Product"), Str);
    SchemaIsCaseDistinct(schema);
    TwoSegmentField(schema, Transaction, fields, 3, 7, "Product", "Description", Named("Product"), Str);
  }

  /** Promotion.Date is a nested DateTime: one member map. */
  lemma PromotionDateField(schema: Schema, fields: seq<UserDefinedFieldForCsvMapper>)
    requires schema == TransactionSchema && fields == FieldsForMapper
    ensures MapsFor(schema, Transaction, fields, fields[4]) == Ok(ExpectedMaps[4])
  {
    NestedFieldOfExample(schema, fields, 4, 9, "Promotion", "Date", Named("Promotion"), DateTime);
    SchemaIsCaseDistinct(schema);
    TwoSegmentField(schema, Transaction, fields, 4, 9, "Promotion", "Date", Named("Promotion"), DateTime);
  }

  /** Promotion.Price is a nested decimal: skipped, no member map and no error. */
  lemma PromotionPriceField(schema: Schema, fields: seq<UserDefinedFieldForCsvMapper>)
    requires schema == TransactionSchema && fields == FieldsForMapper
    ensures MapsFor(schema, Transaction, fields, fields[5]) == Ok(ExpectedMaps[5])
  {
    NestedFieldOfExample(schema, fields, 5, 9, "Promotion", "Price", Named("Promotion"), Dec);
    SchemaIsCaseDistinct(schema);
    TwoSegmentField(schema, Transaction, fields, 5, 9, "Promotion", "Price", Named("Promotion"), Dec);
  }

  /** Field k of the example, on its own, yields ExpectedMaps[k]. */
  lemma FieldOfExample(schema: Schema, fields: seq<UserDefinedFieldForCsvMapper>, k: nat)
    requires schema == TransactionSchema && fields == FieldsForMapper
    requires k < |fields|
    ensures MapsFor(schema, Transaction, fields, fields[k]) == Ok(ExpectedMaps[k])
  {
    if k == 0 {
      TransactionIdField(schema, fields);
    } else if k == 1 {
      ProductNameField(schema, fields);
    } else if k == 2 {
      ProductSkuField(schema, fields);
    } else if k == 3 {
      ProductDescriptionField(schema, fields);
    } else if k == 4 {
      PromotionDateField(schema, fields);
    } else {
      PromotionPriceField(schema, fields);
    }
  }

  /** The class map of the example, in field order. */
  const ExpectedClassMap: seq<MemberMap> := [
    MemberMap(["TransactionId"], Int, Some("transactionid"), false, 1),
    MemberMap(["Product", "Name"], Str, Some("product_name"), false, 2),
    MemberMap(["Product", "Sku"], Str, Some("product_sku"), false, 3),
    MemberMap(["Product", "Description"], Str, Some("product_description"), false, 4),
    MemberMap(["Promotion", "Date"], DateTime, Some("promotion_date"), false, 5)
  ]

  /** The example maps five different members. */
  lemma ExpectedPathsDistinct(expected: seq<MemberMap>)
    requires expected == ExpectedClassMap
    ensures DistinctPaths(expected)
  {
  }

  /** The first k fields of the example register the first k maps of the
   *  class map (all five once the decimal Promotion.Price is reached). */
  function MapsAfter(expected: seq<MemberMap>, k: nat): seq<MemberMap>
    requires |expected| == 5
  {
    expected[..if k < 5 then k else 5]
  }

  /** Field k of the example registers the next map of the class map after
   *  those of the fields before it; Promotion.Price registers nothing. */
  lemma RegisterFieldOfExample(expected: seq<MemberMap>, k: nat)
    requires expected == ExpectedClassMap && k < 6
    ensures RegisterAll(MapsAfter(expected, k), ExpectedMaps[k]) == MapsAfter(expected, k + 1)
  {
    if k < 5 {
      var maps := MapsAfter(expected, k);
      var m := expected[k];
      assert ExpectedMaps[k] == [m];
      ExpectedPathsDistinct(expected);
      assert FindMap(maps, m.path) == None;
      assert Upsert(maps, m) == maps + [m];
      assert [m][1..] == [];
      assert maps + [m] == MapsAfter(expected, k + 1);
    } else {
      assert ExpectedMaps[k] == [];
    }
  }

  /** From the maps the first k fields register, the loop over the
   *  remaining fields completes the class map of the example. */
  lemma {:induction false} AssembleRestOfExample(schema: Schema, fields: seq<UserDefinedFieldForCsvMapper>,
                                                 expected: seq<MemberMap>, k: nat)
    requires schema == TransactionSchema && fields == FieldsForMapper && expected == ExpectedClassMap
    requires k <= |fields|
    ensures AssembleFrom(schema, Transaction, fields, MapsAfter(expected, k), fields[k..]) == Ok(expected)
    decreases |fields| - k
  {
    if k == |fields| {
      assert fields[k..] == [];
      assert MapsAfter(expected, k) == expected;
    } else {
      FieldOfExample(schema, fields, k);
      RegisterFieldOfExample(expected, k);
      assert fields[k..][0] == fields[k];
      assert fields[k..][1..] == fields[k + 1..];
      AssembleRestOfExample(schema, fields, expected, k + 1);
    }
  }

  /** The dynamic map of the example: five member maps in field order, none
   *  ignored, each named by its alias and indexed by its column. The
   *  decimal Promotion.Price gets no member map at all. (The schema and the
   *  list are parameters, as above.) */
  lemma AssembleOfExample(schema: Schema, fields: seq<UserDefinedFieldForCsvMapper>)
    requires schema == TransactionSchema && fields == FieldsForMapper
    ensures Assemble(schema, Transaction, fields, fields) == Ok(ExpectedClassMap)
  {
    AssembleRestOfExample(schema, fields, ExpectedClassMap, 0);
    assert fields[0..] == fields;
  }

  // ---------------------------------------------------------------------
  // Names the example does not use

  /** The one-field list of a field named "Product.name", with a lower-case
   *  member name. */
  lemma LookupsOfCaseVariant(fields: seq<UserDefinedFieldForCsvMapper>)
    requires |fields| == 1 && fields[0] == Field(2, "product_name", "Product.name")
    ensures GetUserDefinedFieldName(fields, "Product.name") == Some("product_name")
    ensures GetIndex(fields, "Product.name") == 2
    ensures !ShouldIgnore(fields, "Product.name")
  {
    assert IsFirstMatch(fields, 0, "Product.name");
    UniqueNameIsNotIgnored(fields, 0);
  }

  /** "name" equals the declared "Name" up to case, and no other property
   *  of Product does. */
  lemma NameIsTheCaseVariant(schema: Schema)
    requires schema == TransactionSchema
    ensures GetPropertyIgnoreCase(schema, Named("Product"), "name") == Ok(Some("Name"))
  {
    SameIgnoringCaseReflexive("ame");
    assert "Name"[1..] == "ame" && "name"[1..] == "ame";
    assert SameIgnoringCase("Name", "name");
    forall n | n in Properties(schema, Named("Product")) && SameIgnoringCase(n, "name")
      ensures n == "Name"
    {
      SameIgnoringCaseLength(n, "name");
    }
    assert CaseVariants(schema, Named("Product"), "name") == {"Name"};
  }

  /** A name "owner.member" splits into its owner and its member. */
  lemma TwoSegments(name: string, owner: string, member: string)
    requires name == owner + [Dot] + member && Dot !in owner && Dot !in member
    ensures Split(name, Dot) == [owner, member]
  {
    var i := |owner|;
    assert name[i] == Dot && name[..i] == owner && name[i + 1..] == member;
    SplitOnce(name, Dot, i);
  }

  /** A field "owner.member" whose owner is declared as spelled and whose
   *  member is declared only under a case variant: GetProp returns a null
   *  property without throwing, and GetMemberExpression binds the declared
   *  member, so a string or DateTime member is mapped under its declared
   *  name. */
  lemma CaseVariantField(schema: Schema, model: Ty, fields: seq<UserDefinedFieldForCsvMapper>, k: nat,
                         owner: string, member: string, declared: string, ownerType: Ty)
    requires CaseDistinct(schema)
    requires k < |fields| && fields[k].fieldName == Some(owner + [Dot] + member)
    requires Dot !in owner && Dot !in member
    requires owner + [Dot] + member !in Properties(schema, model)
    requires GetProperty(schema, model, owner) == Some(ownerType)
    requires GetProperty(schema, ownerType, member) == None
    requires GetPropertyIgnoreCase(schema, ownerType, member) == Ok(Some(declared))
    ensures declared in Properties(schema, ownerType)
    ensures var name := owner + [Dot] + member;
            var leaf := Properties(schema, ownerType)[declared];
            && GetProp(schema, model, name) == Ok((ownerType, None))
            && MapsFor(schema, model, fields, fields[k]) ==
               Ok(if leaf == Str || leaf == DateTime then [Configured(fields, [owner, declared], leaf, name)] else [])
  {
    var name := owner + [Dot] + member;
    var segments := [owner, member];
    TwoSegments(name, owner, member);
    assert segments[1..] == [member];
    assert declared in CaseVariants(schema, ownerType, member);
    var leaf := Properties(schema, ownerType)[declared];
    assert ResolveOwner(schema, model, segments) == Some(ownerType);
    GetPropResolvesOwner(schema, model, name);
    ExactNameBindsItself(schema, model, owner);
    assert Properties(schema, model)[owner] == ownerType;
    assert ResolvePathIgnoringCase(schema, ownerType, [member]) == Ok(Resolved([declared], ownerType, leaf));
    assert [owner] + [declared] == [owner, declared];
    assert ResolvePathIgnoringCase(schema, model, segments) == Ok(Resolved([owner, declared], ownerType, leaf));
    NestedFieldMapsOnlyStringOrDateTime(schema, model, fields, fields[k]);
    var r := MapsFor(schema, model, fields, fields[k]);
    if |r.value| == 1 {
      assert r.value == [r.value[0]];
    } else {
      assert r.value == [];
    }
  }

  /** A list of one field assembles to the maps that field yields. */
  lemma SingleFieldAssembles(schema: Schema, model: Ty, fields: seq<UserDefinedFieldForCsvMapper>, m: MemberMap)
    requires |fields| == 1 && MapsFor(schema, model, fields, fields[0]) == Ok([m])
    ensures Assemble(schema, model, fields, fields) == Ok([m])
  {
    RegisterSame(m);
    assert fields[1..] == [];
    calc {
      Assemble(schema, model, fields, fields);
      AssembleFrom(schema, model, fields, RegisterAll([], [m]), fields[1..]);
      AssembleFrom(schema, model, fields, [m], []);
    }
  }

  /** A field named "Product.name": GetProp looks the last segment up by
   *  exact name and returns a null property without throwing, while
   *  GetMemberExpression binds the declared Product.Name ignoring case. So
   *  the field is mapped, to the member Product.Name, a string. */
  lemma CaseVariantGetPropIsNull(schema: Schema, name: string)
    requires schema == TransactionSchema && name == "Product.name"
    ensures GetProp(schema, Transaction, name) == Ok((Named("Product"), None))
  {
    var segments := ["Product", "name"];
    TwoSegments(name, "Product", "name");
    CaseVariantIsNotDeclared(schema, name);
    assert segments[1..] == ["name"];
    assert ResolveOwner(schema, Transaction, segments) == Some(Named("Product"));
    GetPropResolvesOwner(schema, Transaction, name);
  }

  lemma CaseVariantFieldIsMapped(schema: Schema, fields: seq<UserDefinedFieldForCsvMapper>, name: string)
    requires schema == TransactionSchema && name == "Product.name"
    requires fields == [Field(2, "product_name", name)]
    ensures Assemble(schema, Transaction, fields, fields) ==
            Ok([MemberMap(["Product", "Name"], Str, Some("product_name"), false, 2)])
  {
    CaseVariantIsNotDeclared(schema, name);
    CaseVariantField(schema, Transaction, fields, 0, "Product", "name", "Name", Named("Product"));
    LookupsOfCaseVariant(fields);
    SingleFieldAssembles(schema, Transaction, fields, MemberMap(["Product", "Name"], Str, Some("product_name"), false, 2));
  }

  /** "Product.name" is not a property of Transaction, Product is, and
   *  Product declares no "name" by exact name, only "Name", a string. */
  lemma CaseVariantIsNotDeclared(schema: Schema, name: string)
    requires schema == TransactionSchema && name == "Product.name"
    ensures name == "Product" + [Dot] + "name"
    ensures CaseDistinct(schema)
    ensures name !in Properties(schema, Transaction)
    ensures GetProperty(schema, Transaction, "Product") == Some(Named("Product"))
    ensures GetProperty(schema, Named("Product"), "name") == None
    ensures GetPropertyIgnoreCase(schema, Named("Product"), "name") == Ok(Some("Name"))
    ensures Properties(schema, Named("Product"))["Name"] == Str
  {
    SchemaIsCaseDistinct(schema);
    NameIsTheCaseVariant(schema);
    SchemaOfExample(schema);
    assert Properties(schema, Transaction).Keys == {"TransactionId", "Product", "Promotion"};
    assert |name| == 12;
  }

  /** A field named "product.Name": Transaction declares Product but no
   *  "product", so GetProp dereferences a null property and the build
   *  throws, though GetMemberExpression would bind Product ignoring case. */
  lemma CaseVariantOfOwnerThrows(schema: Schema, fields: seq<UserDefinedFieldForCsvMapper>, name: string)
    requires schema == TransactionSchema && name == "product.Name"
    requires fields == [Field(2, "product_name", name)]
    ensures Assemble(schema, Transaction, fields, fields) == Err(NullReferenceException)
  {
    var segments := ["product", "Name"];
    OwnerVariantIsNotDeclared(schema, name);
    TwoSegments(name, "product", "Name");
    assert ResolveOwner(schema, Transaction, segments) == None;
    NestedFieldMapsOnlyStringOrDateTime(schema, Transaction, fields, fields[0]);
    AssembleStopsAtFailure(schema, Transaction, fields, [], fields, 0);
  }

  /** "product.Name" is not a property of Transaction, and neither is
   *  "product" by exact name. */
  lemma OwnerVariantIsNotDeclared(schema: Schema, name: string)
    requires schema == TransactionSchema && name == "product.Name"
    ensures name == "product" + [Dot] + "Name"
    ensures name !in Properties(schema, Transaction)
    ensures GetProperty(schema, Transaction, "product") == None
  {
    assert Properties(schema, Transaction).Keys == {"TransactionId", "Product", "Promotion"};
    assert |name| == 12;
  }

  /** Two fields naming TransactionId: the second Map call finds the member
   *  mapped already and configures it again, so the class map holds one
   *  map for it, ignored because the name is not unique, under the first
   *  field's alias and column. */
  lemma DuplicateFieldIsMappedOnce(schema: Schema, fields: seq<UserDefinedFieldForCsvMapper>)
    requires schema == TransactionSchema
    requires fields == [Field(1, "transactionid", "TransactionId"), Field(7, "id", "TransactionId")]
    ensures Assemble(schema, Transaction, fields, fields) ==
            Ok([MemberMap(["TransactionId"], Int, Some("transactionid"), true, 1)])
  {
    SchemaOfExample(schema);
    DuplicateFieldMapsOnce(schema, Transaction, fields, fields[0], fields[1]);
    assert fields == [fields[0], fields[1]];
    assert IsFirstMatch(fields, 0, "TransactionId");
    DuplicateNamesAreIgnored(fields, 0, 1);
  }
}
