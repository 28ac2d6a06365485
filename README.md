# CsvHelperDynamicClassMaps, modelled in Dafny

This project models how the program builds a CsvHelper class map at run time from a list of
user-defined fields. Each field has a column index, an alias and a dotted property name such as
`Product.Name`. The modelled parts are:

- `StringExtensions.IsEqualTo`: ordinal, case-sensitive and null-aware string equality.
- The two path resolvers:
  - `Program.GetProp` splits the name on every `.`, looks each part up by exact name with
    `Type.GetProperty`, and recurses on the re-joined tail;
  - the recursive `ParameterExpressionExtensions.GetMemberExpression` cuts the name at its
    first `.` and builds a chain of member accesses with `Expression.PropertyOrField`, which
    binds a member ignoring case.
- The three look-ups over the field list: `GetIndex`, `GetUserDefinedFieldName` and
  `ShouldIgnore`.
- `BuildDynamicCsvClassMap`, the loop that fills a `DefaultClassMap` with member maps:
  - a direct property of the model takes the fast path and is mapped whatever its type;
  - a nested property is mapped only when its leaf is a `string` or a `DateTime`;
  - mapping a member that is mapped already configures the existing map again.
- The repository's own example: the `Transaction` model and its six fields.

Reflection is modelled as declared type metadata. A `Schema` maps each class name to its
properties and their declared types. Only declared types are modelled, never instance values.
A C# `null` is an `Option`, and a thrown exception is the `Err` case of a `Result`.

The two resolvers are each proved against a reference definition in `TypeModel`:

- `ResolveOwner` follows the segments by exact name, as `GetProp` does.
- `ResolvePathIgnoringCase` binds each segment ignoring case, as `GetMemberExpression` does.

They agree wherever every segment is declared exactly as spelled and no class declares two
property names that differ only in case. They can differ where a segment binds only to a case
variant of its spelling, or where a class on the path declares two names that differ only in
case. A field named `Product.name`
makes `GetProp` return a null property without throwing, and `GetMemberExpression` then binds
`Product.Name`, so the field is mapped to `Product.Name`. A field named `product.Name` makes
`GetProp` throw.

The builder is an imperative loop over a `DefaultClassMap` object. It is proved against
`Program.Assemble`, a function that registers each field's maps in input order.

A nested leaf that is neither `string` nor `DateTime` is skipped silently, without an error.
The `Transaction` example therefore yields five member maps. The decimal `Promotion.Price`
gets no map.

## Model

| member | source | states |
|---|---|---|
| StringExtensions.IsEqualTo | CsvHelperDynamicClassMaps/StringExtensions.cs:14-30 | true exactly when both strings are null, or both are non-null and equal character for character |
| StringExtensions.CompareOrdinal | CsvHelperDynamicClassMaps/StringExtensions.cs:29 | the ordinal comparison is zero exactly when the two strings are equal |
| StringExtensions.CompareOrdinalAntisymmetric | CsvHelperDynamicClassMaps/StringExtensions.cs:29 | swapping the operands negates the ordinal comparison, so IsEqualTo is symmetric |
| StringExtensions.IsEqualToIsCaseSensitive | CsvHelperDynamicClassMaps/StringExtensions.cs:6 | "Name" is not equal to "name", and "Name" is equal to itself |
| TypeModel.GetPropertyIgnoreCase | CsvHelperDynamicClassMaps/ParameterExpressionExtensions.cs:12 | the member lookup of PropertyOrField: null exactly when no declared name equals the name up to case, AmbiguousMatchException exactly when several do, otherwise the one that does |
| TypeModel.SameIgnoringCaseReflexive | CsvHelperDynamicClassMaps/ParameterExpressionExtensions.cs:12 | every name equals itself up to case |
| TypeModel.SameIgnoringCaseLength | CsvHelperDynamicClassMaps/ParameterExpressionExtensions.cs:12 | names equal up to case have the same length |
| TypeModel.ExactNameBindsItself | CsvHelperDynamicClassMaps/ParameterExpressionExtensions.cs:12 | without case clashes, a declared name is bound to itself by the lookup ignoring case |
| TypeModel.ResolvedNamesMatchSegments | CsvHelperDynamicClassMaps/ParameterExpressionExtensions.cs:8-18 | a path resolved ignoring case binds one declared member per segment, each equal to its segment up to case |
| TypeModel.ExactPathResolvesIgnoringCase | CsvHelperDynamicClassMaps/ParameterExpressionExtensions.cs:8-18 | without case clashes, a path declared exactly as spelled is bound as spelled, to the owner and leaf type the exact lookups reach |
| TypeModel.ExactlyBoundPathResolvesExactly | CsvHelperDynamicClassMaps/Program.cs:98-105 | a path bound ignoring case to the names as spelled is found by the exact lookups, with the same owner and leaf type |
| TypeModel.ResolveOwnerAtFirstDot | CsvHelperDynamicClassMaps/Program.cs:100-103 | following a dotted name by exact lookup is looking up the text before its first '.' and following the text after it |
| TypeModel.ResolvePathIgnoringCaseAtFirstDot | CsvHelperDynamicClassMaps/ParameterExpressionExtensions.cs:15-17 | resolving a dotted name ignoring case is binding the text before its first '.' and resolving the text after it |
| DottedNames.SplitCount | CsvHelperDynamicClassMaps/Program.cs:100 | splitting on '.' gives one more part than the name has dots |
| DottedNames.SplitPartsHaveNoSeparator | CsvHelperDynamicClassMaps/Program.cs:100 | no part of the split contains a '.' |
| DottedNames.AggregateSplit | CsvHelperDynamicClassMaps/Program.cs:103 | re-joining the parts of a split with '.' gives back the original name |
| DottedNames.SplitAtFirst | CsvHelperDynamicClassMaps/Program.cs:100-103 | the parts after the first are the split of the text after the first '.', so re-joining the tail gives that text |
| DottedNames.OccurrencesAfterFirst | CsvHelperDynamicClassMaps/ParameterExpressionExtensions.cs:15-17 | the text after the first '.' holds one '.' fewer than the whole name |
| ParameterExpressionExtensions.PropertyOrField | CsvHelperDynamicClassMaps/ParameterExpressionExtensions.cs:12 | succeeds exactly when one declared property equals the name up to case; then it accesses that property, under its declared name and declared type, on that expression and keeps the chain well typed; otherwise ArgumentException when none matches, AmbiguousMatchException when several do |
| ParameterExpressionExtensions.GetMemberExpressionFrom | CsvHelperDynamicClassMaps/ParameterExpressionExtensions.cs:8-18 | on success the result is a member access; the only exceptions it throws are ArgumentException and AmbiguousMatchException |
| ParameterExpressionExtensions.FirstSegmentStep | CsvHelperDynamicClassMaps/ParameterExpressionExtensions.cs:15-17 | on a dotted name both the recursive resolver and the reference resolution bind the text before the first '.' and go on from the access it gives |
| ParameterExpressionExtensions.AlikeAfterAccess | CsvHelperDynamicClassMaps/ParameterExpressionExtensions.cs:16-17 | a chain that agrees with the resolution of the rest of the name, from the first access, agrees with the resolution of the whole name |
| ParameterExpressionExtensions.ResolvesAlikeStep | CsvHelperDynamicClassMaps/ParameterExpressionExtensions.cs:15-17 | if the rest of a dotted name resolves alike from the first access, the whole name resolves alike |
| ParameterExpressionExtensions.GetMemberExpressionResolvesPath | CsvHelperDynamicClassMaps/ParameterExpressionExtensions.cs:8-18 | the recursive resolver succeeds exactly when the reference resolution ignoring case does; then its chain extends the argument by the declared names bound, ending at the owner and leaf type found; otherwise it throws the same exception |
| ParameterExpressionExtensions.GetMemberExpressionWellTyped | CsvHelperDynamicClassMaps/ParameterExpressionExtensions.cs:8-18 | on success the chain keeps the argument's root, and every access it adds is to a declared property of its declared type |
| ParameterExpressionExtensions.GetMemberExpression | CsvHelperDynamicClassMaps/ParameterExpressionExtensions.cs:26-28 | delegates to the recursive overload; on success the chain is rooted at the parameter, well typed, and has one access per segment (dots + 1), each to a member whose name equals its segment up to case |
| Program.GetProp | CsvHelperDynamicClassMaps/Program.cs:98-105 | a name without '.' returns the base type and its exact lookup, which may be null; the only exception it throws is a NullReferenceException |
| Program.GetPropRecursesOnSuffix | CsvHelperDynamicClassMaps/Program.cs:100-104 | on a dotted name it looks up the first part and recurses on the rest, which holds one '.' fewer; it throws when the first part is missing |
| Program.GetPropResolvesOwner | CsvHelperDynamicClassMaps/Program.cs:98-105 | it throws exactly when a segment before the last is not declared as spelled; otherwise it returns the type reached and the exact lookup of the last segment on it |
| Program.ResolversAgree | CsvHelperDynamicClassMaps/Program.cs:201-203 | without case clashes, where GetProp finds the property GetMemberExpression binds the segments as spelled and reaches the same owner and leaf type |
| Program.ResolversAgreeOnExactChain | CsvHelperDynamicClassMaps/Program.cs:201-203 | on any schema, where GetMemberExpression binds every segment as spelled, GetProp finds the same owner and leaf type |
| Program.FirstOrDefault | CsvHelperDynamicClassMaps/Program.cs:235-236 | returns the first field, in list order, whose name matches; null when none matches |
| Program.GetIndex | CsvHelperDynamicClassMaps/Program.cs:235-237 | the column index of the first matching field; 0 when none matches |
| Program.GetUserDefinedFieldName | CsvHelperDynamicClassMaps/Program.cs:239-240 | the alias of the first matching field; null when none matches |
| Program.CountMatches | CsvHelperDynamicClassMaps/Program.cs:242-243 | the number of matching fields is at most the number of fields, and zero exactly when no field matches |
| Program.CountMatchesOneIffUnique | CsvHelperDynamicClassMaps/Program.cs:242-244 | the match count is one exactly when one field, and no other, matches |
| Program.ShouldIgnore | CsvHelperDynamicClassMaps/Program.cs:242-244 | a name is ignored exactly when it does not match exactly one field |
| Program.DuplicateNamesAreIgnored | CsvHelperDynamicClassMaps/Program.cs:242-244 | a name carried by two fields is ignored |
| Program.UniqueNameIsNotIgnored | CsvHelperDynamicClassMaps/Program.cs:242-244 | a name carried by exactly one field is not ignored |
| Program.Configured | CsvHelperDynamicClassMaps/Program.cs:194-197 | a map configured for a name keeps the member's path and type, takes the first matching field's alias and column (null and 0 when none matches), and is ignored exactly when the name does not match exactly one field |
| Program.MapsFor | CsvHelperDynamicClassMaps/Program.cs:189-233 | one field yields at most one member map |
| Program.FindMap | CsvHelperDynamicClassMaps/Program.cs:194 | finds the first map of the member at a path, and finds none exactly when no map has that path |
| Program.Upsert | CsvHelperDynamicClassMaps/Program.cs:194-197 | registering a map keeps every other map in its place, replaces the map of the same member or adds one at the end, and keeps members distinct |
| Program.RegisterAllKeepsMaps | CsvHelperDynamicClassMaps/Program.cs:194-229 | registering keeps existing maps in their places, adds at most one map per registration and maps no member twice |
| Program.RegisterSame | CsvHelperDynamicClassMaps/Program.cs:194 | registering a map into an empty class map, then again, leaves exactly that map |
| Program.AssembleFrom | CsvHelperDynamicClassMaps/Program.cs:188-233 | the loop completes exactly when no field's iteration throws; when it throws, the exception is the one some field's iteration throws |
| Program.AssembleAppend | CsvHelperDynamicClassMaps/Program.cs:188 | the loop over a + b is the loop over a, then the loop over b from the class map a left; a failure in a ends it |
| Program.AssembleStopsAtFailure | CsvHelperDynamicClassMaps/Program.cs:188-233 | the first field that throws decides the result: the build throws that exception and returns no class map |
| Program.AssembleFromKeepsMaps | CsvHelperDynamicClassMaps/Program.cs:188-233 | the loop keeps the maps it started from in place, adds at most one map per field and maps no member twice |
| Program.AssembleMapsEachMemberOnce | CsvHelperDynamicClassMaps/Program.cs:188-233 | a built class map has at most one map per field and never two maps for the same member |
| Program.AssembleKeepsPrefixOrder | CsvHelperDynamicClassMaps/Program.cs:188 | the members mapped for the first k fields keep their places, in order, in the class map of the whole list |
| Program.FlatFieldYieldsOneMap | CsvHelperDynamicClassMaps/Program.cs:190-198 | a direct property yields exactly one member map, whatever its type, named, ignored and indexed by the three look-ups |
| Program.DuplicateFieldMapsOnce | CsvHelperDynamicClassMaps/Program.cs:190-198 | two fields naming the same direct property map that member once |
| Program.NestedFieldMapsOnlyStringOrDateTime | CsvHelperDynamicClassMaps/Program.cs:199-232 | a nested name throws NullReferenceException when a segment before the last is not declared as spelled, or the exception of the lookup ignoring case; otherwise it yields one map when the bound leaf is string or DateTime and none otherwise, following the members as bound |
| Program.NullFieldNameThrows | CsvHelperDynamicClassMaps/Program.cs:190 | a null field name makes the build throw ArgumentNullException, unless an earlier field throws first |
| Program.DefaultClassMap.constructor | CsvHelperDynamicClassMaps/Program.cs:185 | a new class map holds no member maps |
| Program.DefaultClassMap.Map | CsvHelperDynamicClassMaps/Program.cs:194 | configures the existing map of the member again in its place, or adds a new map after the others |
| Program.MapField | CsvHelperDynamicClassMaps/Program.cs:189-233 | one pass of the loop: it registers exactly the maps the field yields, or returns the exception the field throws and leaves the class map as it was |
| Program.BuildDynamicCsvClassMap | CsvHelperDynamicClassMaps/Program.cs:181-247 | returns a fresh class map whose member maps are the assembly of all fields in input order, or throws the first exception that assembly meets |
| TransactionFixture.FieldNamesAreDistinct | CsvHelperDynamicClassMaps/Program.cs:15-53 | no two fields of the example share a name |
| TransactionFixture.LookupsOfField | CsvHelperDynamicClassMaps/Program.cs:15-53 | every field of the example keeps its own alias and column and is not ignored |
| TransactionFixture.SchemaIsCaseDistinct | CsvHelperDynamicClassMaps/Transaction.cs:16-20 | no class of the example declares two property names that differ only in case |
| TransactionFixture.TwoSegmentField | CsvHelperDynamicClassMaps/Program.cs:199-232 | a field "owner.member" declared as spelled yields one map under its alias and column when the member is a string or DateTime, none otherwise |
| TransactionFixture.TransactionIdField | CsvHelperDynamicClassMaps/Transaction.cs:20 | TransactionId is a direct int property and yields one map |
| TransactionFixture.ProductNameField | CsvHelperDynamicClassMaps/ProductMap.cs:9 | Product.Name is a nested string and yields one map |
| TransactionFixture.ProductSkuField | CsvHelperDynamicClassMaps/ProductMap.cs:10 | Product.Sku is a nested string and yields one map |
| TransactionFixture.ProductDescriptionField | CsvHelperDynamicClassMaps/ProductMap.cs:11 | Product.Description is a nested string and yields one map |
| TransactionFixture.PromotionDateField | CsvHelperDynamicClassMaps/PromotionMap.cs:9 | Promotion.Date is a nested DateTime and yields one map |
| TransactionFixture.PromotionPriceField | CsvHelperDynamicClassMaps/PromotionMap.cs:10 | Promotion.Price, taken to be a decimal, yields no map and no error |
| TransactionFixture.FieldOfExample | CsvHelperDynamicClassMaps/Program.cs:15-53 | each field of the example, on its own, yields its expected maps |
| TransactionFixture.AssembleOfExample | CsvHelperDynamicClassMaps/Program.cs:15-53 | over the `Transaction` class of CsvHelperDynamicClassMaps/Transaction.cs:16-20, the example's field list builds five member maps in field order, none ignored, each named by its alias and indexed by its column |
| TransactionFixture.NameIsTheCaseVariant | CsvHelperDynamicClassMaps/ParameterExpressionExtensions.cs:12 | the lookup ignoring case binds "name" on Product to its declared "Name" |
| TransactionFixture.CaseVariantField | CsvHelperDynamicClassMaps/Program.cs:199-232 | a field "owner.member" whose member is declared only under another case: GetProp returns a null property, and the member is mapped under its declared name when it is a string or DateTime |
| TransactionFixture.CaseVariantGetPropIsNull | CsvHelperDynamicClassMaps/Program.cs:98-105 | GetProp on "Product.name" returns Product and a null property, without throwing |
| TransactionFixture.CaseVariantFieldIsMapped | CsvHelperDynamicClassMaps/Program.cs:199-232 | a field named "Product.name" is mapped to the member Product.Name, a string |
| TransactionFixture.CaseVariantOfOwnerThrows | CsvHelperDynamicClassMaps/Program.cs:201 | a field named "product.Name" makes the build throw NullReferenceException |
| TransactionFixture.DuplicateFieldIsMappedOnce | CsvHelperDynamicClassMaps/Program.cs:190-198 | two fields naming TransactionId give one map, ignored, under the first field's alias and column |

## Left out

- Reading and writing CSV files, `Main`, the console output, and the static `ProductMap`,
  `PromotionMap` and transaction comparer: these are I/O or fixed configuration, not the
  dynamic mapping.
- `GenerateExpression` is left out. It looks up only the first part of the name through
  `ExpressionHelper`, which is not part of this model, and its result is never used.
- `Program.MapsFor`: a name without '.' that is not a property by exact name goes straight to
  `GetMemberExpression`. A string or DateTime case variant is mapped, any other case variant is
  skipped, and otherwise ArgumentException or AmbiguousMatchException is thrown. What
  `ExpressionHelper.GetPropertyInfo` in `GenerateExpression` does first is not modelled.
- `ExpressionHelper.GetLambda`, `Expression.Convert` and `MakeGenericType` in
  `GenerateExpression2` are not modelled. The model keeps the member chain and its leaf type.
  The two casts to a string or DateTime selector are modelled as tests on the leaf type.
- CsvHelper's `MemberMap` object is not modelled. Its `Name`, `Ignore` and `Index` calls mutate
  that object in place; the model records only the final configuration as a `MemberMap` value.
- `Program.DefaultClassMap.Map`: CsvHelper registers a nested member in a reference map of the
  owning type. The model keeps one list of maps keyed by the member's full path, so the nesting
  of reference maps is not modelled. Reuse of an existing map for the same member is modelled.
- `ParameterExpressionExtensions.PropertyOrField`: the schema holds public instance properties
  only. Public fields, non-public members and the exclusion of static members are not modelled.
- `TypeModel.GetPropertyIgnoreCase`: case is folded for the ASCII letters only. The culture-
  invariant case mapping of other letters is not modelled.
- A null element in the field list is not modelled. `item.FieldName` would dereference it and
  throw a NullReferenceException, and the look-ups would too.
- A `Schema` may hold a property name that contains '.', which C# cannot declare. No lemma
  relies on such a name; the resolvers would never reach it, since every segment is '.'-free.
- Parsing cell values, and the run-time objects that would be populated, are not modelled. The
  resolvers work on declared types only, so they cannot observe a null intermediate object.
- Primitive types are taken to have no properties. A path through a string's `Length`, for
  example, is unknown in the model.
- `IndexOf(".")` with a string argument is culture-sensitive in .NET. The model takes it as an
  ordinal search for the character '.'.
- `StringExtensions.CompareOrdinal`: characters are Unicode scalar values, not UTF-16 code units.
  Only whether the result is zero is relied on, and that is the same.
- `TransactionFixture.PromotionPriceField`: the `Promotion` class is not part of this model. The
  type of `Price` is taken to be decimal, so the field yields no member map.
