/**
 * Program.BuildDynamicCsvClassMap and what it relies on: the recursive
 * GetProp resolver, the three look-ups over the caller's field list
 * (index, alias, ignore), and the loop that fills a DefaultClassMap.
 */
module Program {
  import opened Wrappers
  import opened TypeModel
  import opened DottedNames
  import opened StringExtensions
  import opened ParameterExpressionExtensions

  // ---------------------------------------------------------------------
  // GetProp

  /** GetProp(baseType, propertyName): split the name on every '.', and
   *  while there is more than one part, descend into the declared type of
   *  the first part and recurse on the rest re-joined. A missing first part
   *  dereferences a null PropertyInfo; a missing last part is returned as
   *  null next to the type that should own it. */
  function GetProp(schema: Schema, baseType: Ty, propertyName: string)
    : (r: Result<(Ty, Option<Ty>), Exception>)
    ensures Dot !in propertyName ==> r == Ok((baseType, GetProperty(schema, baseType, propertyName)))
    ensures r.Err? ==> r.error == NullReferenceException
    decreases |propertyName|
  {
    var parts := Split(propertyName, Dot);
    if |parts| > 1 then
      SplitAtFirst(propertyName, Dot);
      match GetProperty(schema, baseType, parts[0])
      case None => Err(NullReferenceException)
      case Some(t) => GetProp(schema, t, Aggregate(parts[1..], Dot))
    else
      Ok((baseType, GetProperty(schema, baseType, propertyName)))
  }

  /** One step of GetProp on a dotted name: it looks up the text before the
   *  first '.' and recurses on the text after it, which holds one '.' fewer;
   *  so GetProp recurses exactly once per '.' in the name. */
  lemma GetPropRecursesOnSuffix(schema: Schema, baseType: Ty, propertyName: string)
    requires Dot in propertyName
    ensures var i := IndexOf(propertyName, Dot);
            var suffix := propertyName[i + 1..];
            && Occurrences(suffix, Dot) == Occurrences(propertyName, Dot) - 1
            && GetProp(schema, baseType, propertyName) ==
               match GetProperty(schema, baseType, propertyName[..i])
               case None => Err(NullReferenceException)
               case Some(t) => GetProp(schema, t, suffix)
  {
    SplitAtFirst(propertyName, Dot);
    OccurrencesAfterFirst(propertyName, Dot);
  }

  /** GetProp follows the segments of the name by exact lookup: it throws
   *  when a segment before the last is not declared on the type reached so
   *  far, and otherwise returns that type with the last segment looked up
   *  on it, null when absent. */
  lemma {:induction false} GetPropResolvesOwner(schema: Schema, baseType: Ty, propertyName: string)
    ensures var segments := Split(propertyName, Dot);
            GetProp(schema, baseType, propertyName) ==
            match ResolveOwner(schema, baseType, segments)
            case None => Err(NullReferenceException)
            case Some(owner) => Ok((owner, GetProperty(schema, owner, segments[|segments| - 1])))
    decreases |propertyName|
  {
    if Dot !in propertyName {
      assert Split(propertyName, Dot) == [propertyName];
    } else {
      var i := IndexOf(propertyName, Dot);
      GetPropRecursesOnSuffix(schema, baseType, propertyName);
      ResolveOwnerAtFirstDot(schema, baseType, propertyName);
      var first := GetProperty(schema, baseType, propertyName[..i]);
      if first.Some? {
        GetPropResolvesOwner(schema, first.value, propertyName[i + 1..]);
      }
    }
  }

  /** Where GetProp finds the property, GetMemberExpression binds the same
   *  members, as spelled in the name, and reaches the same owning type and
   *  leaf type; this holds when no class declares two properties whose
   *  names differ only in case. */
  lemma ResolversAgree(schema: Schema, root: Ty, propertyName: string)
    requires CaseDistinct(schema)
    ensures var e := GetMemberExpression(schema, Parameter(root), propertyName);
            var g := GetProp(schema, root, propertyName);
            g.Ok? && g.value.1.Some? ==>
              && e.Ok? && Path(e.value) == Split(propertyName, Dot)
              && g.value == (TypeOf(e.value.inner), Some(e.value.memberType))
  {
    var g := GetProp(schema, root, propertyName);
    GetPropResolvesOwner(schema, root, propertyName);
    if g.Ok? && g.value.1.Some? {
      var segments := Split(propertyName, Dot);
      ExactPathResolvesIgnoringCase(schema, root, segments);
      assert ResolvePathIgnoringCase(schema, root, segments).Ok?;
      GetMemberExpressionResolvesPath(schema, Parameter(root), propertyName);
      assert Path(Parameter(root)) == [];
    }
  }

  /** Conversely, on any schema: where GetMemberExpression binds every
   *  segment as spelled, GetProp finds the same owner and leaf type. Where
   *  it binds a case variant instead, GetProp may return a null property
   *  or throw. */
  lemma ResolversAgreeOnExactChain(schema: Schema, root: Ty, propertyName: string)
    ensures var e := GetMemberExpression(schema, Parameter(root), propertyName);
            var g := GetProp(schema, root, propertyName);
            e.Ok? && Path(e.value) == Split(propertyName, Dot) ==>
              g == Ok((TypeOf(e.value.inner), Some(e.value.memberType)))
  {
    GetPropResolvesOwner(schema, root, propertyName);
    GetMemberExpressionResolvesPath(schema, Parameter(root), propertyName);
    ExactlyBoundPathResolvesExactly(schema, root, Split(propertyName, Dot));
  }


  // ---------------------------------------------------------------------
  // The caller's field list and the look-ups over it

  /** UserDefinedFieldForCsvMapper; alias and name are nullable strings. */
  datatype UserDefinedFieldForCsvMapper =
    UserDefinedFieldForCsvMapper(columnIndex: int, fieldAlias: Option<string>, fieldName: Option<string>)

  /** The look-ups' filter: the field's name equals the name looked up,
   *  with the null-aware, case-sensitive comparison of IsEqualTo. */
  predicate Matches(u: UserDefinedFieldForCsvMapper, fieldName: string)
  {
    IsEqualTo(u.fieldName, Some(fieldName))
  }

  /** Field i is the first, in list order, whose name matches. */
  predicate IsFirstMatch(fields: seq<UserDefinedFieldForCsvMapper>, i: int, fieldName: string)
  {
    && 0 <= i < |fields|
    && Matches(fields[i], fieldName)
    && forall j :: 0 <= j < i ==> !Matches(fields[j], fieldName)
  }

  /** No field of the list has a matching name. */
  predicate NoMatch(fields: seq<UserDefinedFieldForCsvMapper>, fieldName: string)
  {
    forall i :: 0 <= i < |fields| ==> !Matches(fields[i], fieldName)
  }

  /** FirstOrDefault over the filter above: the first
   *  matching field in list order, or null when none matches. */
  function FirstOrDefault(fields: seq<UserDefinedFieldForCsvMapper>, fieldName: string)
    : (r: Option<UserDefinedFieldForCsvMapper>)
    ensures forall i :: IsFirstMatch(fields, i, fieldName) ==> r == Some(fields[i])
    ensures NoMatch(fields, fieldName) ==> r == None
  {
    if fields == [] then None
    else if Matches(fields[0], fieldName) then Some(fields[0])
    else
      var r := FirstOrDefault(fields[1..], fieldName);
      assert forall i :: 1 <= i < |fields| ==> fields[i] == fields[1..][i - 1];
      assert forall i :: IsFirstMatch(fields, i, fieldName) ==> IsFirstMatch(fields[1..], i - 1, fieldName);
      r
  }

  /** GetIndex: the column index of the first field whose name matches,
   *  0 when none does. */
  function GetIndex(fields: seq<UserDefinedFieldForCsvMapper>, fieldName: string): (r: int)
    ensures forall i :: IsFirstMatch(fields, i, fieldName) ==> r == fields[i].columnIndex
    ensures NoMatch(fields, fieldName) ==> r == 0
  {
    match FirstOrDefault(fields, fieldName)
    case Some(u) => u.columnIndex
    case None => 0
  }

  /** GetUserDefinedFieldName: the alias of the first field whose name
   *  matches, null when none does. */
  function GetUserDefinedFieldName(fields: seq<UserDefinedFieldForCsvMapper>, fieldName: string)
    : (r: Option<string>)
    ensures forall i :: IsFirstMatch(fields, i, fieldName) ==> r == fields[i].fieldAlias
    ensures NoMatch(fields, fieldName) ==> r == None
  {
    match FirstOrDefault(fields, fieldName)
    case Some(u) => u.fieldAlias
    case None => None
  }

  /** The number of fields of the list whose name matches: zero exactly
   *  when none does. */
  function CountMatches(fields: seq<UserDefinedFieldForCsvMapper>, fieldName: string): (c: nat)
    ensures c <= |fields|
    ensures c == 0 <==> NoMatch(fields, fieldName)
  {
    if fields == [] then 0
    else
      assert forall i :: 1 <= i < |fields| ==> fields[i] == fields[1..][i - 1];
      (if Matches(fields[0], fieldName) then 1 else 0) + CountMatches(fields[1..], fieldName)
  }

  /** Exactly one field of the list matches the name. */
  ghost predicate UniqueMatch(fields: seq<UserDefinedFieldForCsvMapper>, fieldName: string)
  {
    exists i :: 0 <= i < |fields| && Matches(fields[i], fieldName) &&
      forall j :: 0 <= j < |fields| && Matches(fields[j], fieldName) ==> j == i
  }

  /** When the head matches, the match is unique iff nothing else matches. */
  lemma UniqueMatchWithMatchingHead(fields: seq<UserDefinedFieldForCsvMapper>, fieldName: string)
    requires fields != [] && Matches(fields[0], fieldName)
    ensures UniqueMatch(fields, fieldName) <==> NoMatch(fields[1..], fieldName)
  {
    var rest := fields[1..];
    if NoMatch(rest, fieldName) {
      assert forall j :: 0 <= j < |fields| && Matches(fields[j], fieldName) ==> j == 0;
    } else {
      var k :| 0 <= k < |rest| && Matches(rest[k], fieldName);
      assert fields[k + 1] == rest[k];
    }
  }

  /** When the head does not match, uniqueness is decided by the tail. */
  lemma UniqueMatchWithOtherHead(fields: seq<UserDefinedFieldForCsvMapper>, fieldName: string)
    requires fields != [] && !Matches(fields[0], fieldName)
    ensures UniqueMatch(fields, fieldName) <==> UniqueMatch(fields[1..], fieldName)
  {
    var rest := fields[1..];
    if UniqueMatch(rest, fieldName) {
      var i :| 0 <= i < |rest| && Matches(rest[i], fieldName) &&
        forall j :: 0 <= j < |rest| && Matches(rest[j], fieldName) ==> j == i;
      forall j | 0 <= j < |fields| && Matches(fields[j], fieldName)
        ensures j == i + 1
      {
        assert j != 0;
        assert fields[j] == rest[j - 1];
      }
      assert fields[i + 1] == rest[i];
    }
    if UniqueMatch(fields, fieldName) {
      var i :| 0 <= i < |fields| && Matches(fields[i], fieldName) &&
        forall j :: 0 <= j < |fields| && Matches(fields[j], fieldName) ==> j == i;
      assert i != 0;
      assert fields[i] == rest[i - 1];
      forall j | 0 <= j < |rest| && Matches(rest[j], fieldName)
        ensures j == i - 1
      {
        assert fields[j + 1] == rest[j];
      }
    }
  }

  /** The count is one exactly when one field, and no other, matches. */
  lemma {:induction false} CountMatchesOneIffUnique(fields: seq<UserDefinedFieldForCsvMapper>, fieldName: string)
    ensures CountMatches(fields, fieldName) == 1 <==> UniqueMatch(fields, fieldName)
  {
    if fields != [] {
      if Matches(fields[0], fieldName) {
        UniqueMatchWithMatchingHead(fields, fieldName);
      } else {
        CountMatchesOneIffUnique(fields[1..], fieldName);
        UniqueMatchWithOtherHead(fields, fieldName);
      }
    }
  }

  /** ShouldIgnore: the count of matching fields is not one, that is, a
   *  field name is mapped (not ignored) exactly when one field of the
   *  list, and no other, carries it. */
  function ShouldIgnore(fields: seq<UserDefinedFieldForCsvMapper>, fieldName: string): (r: bool)
    ensures r <==> !UniqueMatch(fields, fieldName)
  {
    CountMatchesOneIffUnique(fields, fieldName);
    CountMatches(fields, fieldName) != 1
  }

  /** Two fields carrying the same name make that name ignored, for every
   *  copy; a name carried by a single field is not ignored. */
  lemma DuplicateNamesAreIgnored(fields: seq<UserDefinedFieldForCsvMapper>, i: nat, j: nat)
    requires i < |fields| && j < |fields| && i != j
    requires fields[i].fieldName.Some? && fields[j].fieldName == fields[i].fieldName
    ensures ShouldIgnore(fields, fields[i].fieldName.value)
  {
    CountMatchesOneIffUnique(fields, fields[i].fieldName.value);
  }

  /** A name carried by exactly one field of the list is not ignored. */
  lemma UniqueNameIsNotIgnored(fields: seq<UserDefinedFieldForCsvMapper>, i: nat)
    requires i < |fields| && fields[i].fieldName.Some?
    requires forall j :: 0 <= j < |fields| && j != i ==> fields[j].fieldName != fields[i].fieldName
    ensures !ShouldIgnore(fields, fields[i].fieldName.value)
  {
    var name := fields[i].fieldName.value;
    assert forall j :: 0 <= j < |fields| && Matches(fields[j], name) ==> j == i;
    CountMatchesOneIffUnique(fields, name);
  }

  // ---------------------------------------------------------------------
  // The class map and its assembly

  /** One configured member map: the member chain it reads and writes, the
   *  member's declared type, and its Name, Ignore and Index settings. */
  datatype MemberMap = MemberMap(path: seq<string>, memberType: Ty, name: Option<string>, ignore: bool, index: int)

  /** A member map configured for a field name: its Name is the first
   *  matching alias, Ignore is ShouldIgnore and Index the first matching
   *  column index. */
  function Configured(fields: seq<UserDefinedFieldForCsvMapper>, path: seq<string>, memberType: Ty, fieldName: string)
    : (r: MemberMap)
    ensures r.path == path && r.memberType == memberType
    ensures r.ignore <==> !UniqueMatch(fields, fieldName)
    ensures forall i :: IsFirstMatch(fields, i, fieldName) ==>
              r.name == fields[i].fieldAlias && r.index == fields[i].columnIndex
    ensures NoMatch(fields, fieldName) ==> r.name == None && r.index == 0
  {
    MemberMap(path, memberType, GetUserDefinedFieldName(fields, fieldName),
              ShouldIgnore(fields, fieldName), GetIndex(fields, fieldName))
  }

  /** The member maps that one iteration of the builder's loop adds for
   *  item, or the exception it throws: a direct property of the model is
   *  mapped whatever its type; a nested one is resolved by GetProp and by
   *  GetMemberExpression and mapped only if it is a string or a DateTime,
   *  one `if` per type, as the two casts are tested one after the other. */
  function MapsFor(schema: Schema, model: Ty, fields: seq<UserDefinedFieldForCsvMapper>,
                   item: UserDefinedFieldForCsvMapper): (r: Result<seq<MemberMap>, Exception>)
    ensures r.Ok? ==> |r.value| <= 1
  {
    match item.fieldName
    case None => Err(ArgumentNullException)
    case Some(name) =>
      match GetProperty(schema, model, name)
      case Some(t) => Ok([Configured(fields, [name], t, name)])
      case None =>
        match GetProp(schema, model, name)
        case Err(e) => Err(e)
        case Ok(_) =>
          match GetMemberExpression(schema, Parameter(model), name)
          case Err(e) => Err(e)
          case Ok(m) =>
            Ok((if m.memberType == Str then [Configured(fields, Path(m), Str, name)] else [])
               + (if m.memberType == DateTime then [Configured(fields, Path(m), DateTime, name)] else []))
  }


  /** No member is mapped twice. */
  predicate DistinctPaths(maps: seq<MemberMap>)
  {
    forall i, j :: 0 <= i < j < |maps| ==> maps[i].path != maps[j].path
  }

  /** The position of the first map for the member at path, if that member
   *  is mapped already. */
  function FindMap(maps: seq<MemberMap>, path: seq<string>): (r: Option<nat>)
    ensures r.Some? ==> r.value < |maps| && maps[r.value].path == path
    ensures r.Some? ==> forall j :: 0 <= j < r.value ==> maps[j].path != path
    ensures r.None? <==> forall j :: 0 <= j < |maps| ==> maps[j].path != path
  {
    if maps == [] then None
    else if maps[0].path == path then Some(0)
    else
      assert forall j :: 1 <= j < |maps| ==> maps[j] == maps[1..][j - 1];
      match FindMap(maps[1..], path)
      case None => None
      case Some(j) => Some(j + 1)
  }

  /** Registering m as ClassMap.Map(member) and the configuration calls on
   *  the map it returns do: a member mapped already keeps its place and
   *  takes m's configuration; a new member is mapped after the others. */
  function Upsert(maps: seq<MemberMap>, m: MemberMap): (r: seq<MemberMap>)
    ensures m in r
    ensures |r| == |maps| + (if FindMap(maps, m.path).None? then 1 else 0)
    ensures forall j :: 0 <= j < |maps| ==> r[j].path == maps[j].path
    ensures forall j :: 0 <= j < |maps| && maps[j].path != m.path ==> r[j] == maps[j]
    ensures DistinctPaths(maps) ==> DistinctPaths(r)
  {
    match FindMap(maps, m.path)
    case Some(i) =>
      assert maps[i := m][i] == m;
      maps[i := m]
    case None => maps + [m]
  }

  /** The member maps of one iteration, registered in order. */
  function RegisterAll(maps: seq<MemberMap>, ms: seq<MemberMap>): seq<MemberMap>
    decreases |ms|
  {
    if ms == [] then maps else RegisterAll(Upsert(maps, ms[0]), ms[1..])
  }

  /** Registering keeps every map already there in its place, member for
   *  member, adds at most one map per registration, and maps no member
   *  twice. */
  lemma {:induction false} RegisterAllKeepsMaps(maps: seq<MemberMap>, ms: seq<MemberMap>)
    ensures var r := RegisterAll(maps, ms);
            && |maps| <= |r| <= |maps| + |ms|
            && (forall j :: 0 <= j < |maps| ==> r[j].path == maps[j].path)
            && (DistinctPaths(maps) ==> DistinctPaths(r))
    decreases |ms|
  {
    if ms != [] {
      RegisterAllKeepsMaps(Upsert(maps, ms[0]), ms[1..]);
    }
  }

  /** Registering a map into an empty class map, and then registering it
   *  again, leaves exactly that one map. */
  lemma RegisterSame(m: MemberMap)
    ensures RegisterAll([], [m]) == [m]
    ensures RegisterAll([m], [m]) == [m]
  {
    assert [m][1..] == [];
    assert FindMap([], m.path) == None;
    assert Upsert([], m) == [m];
    assert FindMap([m], m.path) == Some(0);
    assert Upsert([m], m) == [m];
  }

  /** The builder's loop from a class map holding maps, over items: each
   *  item's member maps are registered in turn; the first exception ends
   *  the loop. Names are looked up in the whole list fields. */
  function AssembleFrom(schema: Schema, model: Ty, fields: seq<UserDefinedFieldForCsvMapper>,
                        maps: seq<MemberMap>, items: seq<UserDefinedFieldForCsvMapper>)
    : (r: Result<seq<MemberMap>, Exception>)
    ensures r.Ok? <==> forall k :: 0 <= k < |items| ==> MapsFor(schema, model, fields, items[k]).Ok?
    ensures r.Err? ==> exists k :: 0 <= k < |items| && MapsFor(schema, model, fields, items[k]) == Err(r.error)
    decreases |items|
  {
    if items == [] then Ok(maps)
    else
      assert forall k :: 1 <= k < |items| ==> items[k] == items[1..][k - 1];
      match MapsFor(schema, model, fields, items[0])
      case Err(e) => Err(e)
      case Ok(ms) => AssembleFrom(schema, model, fields, RegisterAll(maps, ms), items[1..])
  }

  /** The member maps the builder registers for items, starting from an
   *  empty class map. */
  function Assemble(schema: Schema, model: Ty, fields: seq<UserDefinedFieldForCsvMapper>,
                    items: seq<UserDefinedFieldForCsvMapper>): Result<seq<MemberMap>, Exception>
  {
    AssembleFrom(schema, model, fields, [], items)
  }

  /** The loop over a + b is the loop over a, then the loop over b from the
   *  class map that a left; a failure in a ends it. */
  lemma {:induction false} AssembleAppend(schema: Schema, model: Ty, fields: seq<UserDefinedFieldForCsvMapper>,
                                          maps: seq<MemberMap>,
                                          a: seq<UserDefinedFieldForCsvMapper>, b: seq<UserDefinedFieldForCsvMapper>)
    ensures AssembleFrom(schema, model, fields, maps, a + b) ==
            match AssembleFrom(schema, model, fields, maps, a)
            case Err(e) => Err(e)
            case Ok(x) => AssembleFrom(schema, model, fields, x, b)
    decreases |a|
  {
    if a == [] {
      assert a + b == b;
    } else {
      assert (a + b)[0] == a[0];
      assert (a + b)[1..] == a[1..] + b;
      var r := MapsFor(schema, model, fields, a[0]);
      if r.Ok? {
        AssembleAppend(schema, model, fields, RegisterAll(maps, r.value), a[1..], b);
      }
    }
  }

  /** The first field whose iteration throws decides the result: the loop
   *  returns that exception and no class map. */
  lemma {:induction false} AssembleStopsAtFailure(schema: Schema, model: Ty, fields: seq<UserDefinedFieldForCsvMapper>,
                                                  maps: seq<MemberMap>, items: seq<UserDefinedFieldForCsvMapper>, k: nat)
    requires k < |items| && MapsFor(schema, model, fields, items[k]).Err?
    requires forall j :: 0 <= j < k ==> MapsFor(schema, model, fields, items[j]).Ok?
    ensures AssembleFrom(schema, model, fields, maps, items) == Err(MapsFor(schema, model, fields, items[k]).error)
    decreases k
  {
    if k > 0 {
      var rest := items[1..];
      assert rest[k - 1] == items[k];
      forall j | 0 <= j < k - 1
        ensures MapsFor(schema, model, fields, rest[j]).Ok?
      {
        assert rest[j] == items[j + 1];
      }
      var ms := MapsFor(schema, model, fields, items[0]).value;
      AssembleStopsAtFailure(schema, model, fields, RegisterAll(maps, ms), items[1..], k - 1);
    }
  }

  /** The loop keeps the maps it started from in their places, adds at most
   *  one map per field, and maps no member twice. */
  lemma {:induction false} AssembleFromKeepsMaps(schema: Schema, model: Ty, fields: seq<UserDefinedFieldForCsvMapper>,
                                                 maps: seq<MemberMap>, items: seq<UserDefinedFieldForCsvMapper>)
    ensures var r := AssembleFrom(schema, model, fields, maps, items);
            r.Ok? ==> && |maps| <= |r.value| <= |maps| + |items|
                      && (forall j :: 0 <= j < |maps| ==> r.value[j].path == maps[j].path)
                      && (DistinctPaths(maps) ==> DistinctPaths(r.value))
    decreases |items|
  {
    if items != [] {
      var r := MapsFor(schema, model, fields, items[0]);
      if r.Ok? {
        RegisterAllKeepsMaps(maps, r.value);
        AssembleFromKeepsMaps(schema, model, fields, RegisterAll(maps, r.value), items[1..]);
      }
    }
  }

  /** The class map has at most one member map per field, and never two
   *  for the same member. */
  lemma AssembleMapsEachMemberOnce(schema: Schema, model: Ty, fields: seq<UserDefinedFieldForCsvMapper>,
                                   items: seq<UserDefinedFieldForCsvMapper>)
    ensures var r := Assemble(schema, model, fields, items);
            r.Ok? ==> |r.value| <= |items| && DistinctPaths(r.value)
  {
    AssembleFromKeepsMaps(schema, model, fields, [], items);
  }

  /** Input order: the members mapped for the first k fields come first,
   *  in the same places, in the class map of the whole list. */
  lemma AssembleKeepsPrefixOrder(schema: Schema, model: Ty, fields: seq<UserDefinedFieldForCsvMapper>,
                                 items: seq<UserDefinedFieldForCsvMapper>, k: nat)
    requires k <= |items|
    ensures var whole := Assemble(schema, model, fields, items);
            var prefix := Assemble(schema, model, fields, items[..k]);
            whole.Ok? ==> && prefix.Ok? && |prefix.value| <= |whole.value|
                          && forall j :: 0 <= j < |prefix.value| ==> whole.value[j].path == prefix.value[j].path
  {
    assert items[..k] + items[k..] == items;
    AssembleAppend(schema, model, fields, [], items[..k], items[k..]);
    var prefix := Assemble(schema, model, fields, items[..k]);
    if prefix.Ok? {
      AssembleFromKeepsMaps(schema, model, fields, prefix.value, items[k..]);
    }
  }

  /** The fast path: a name that is a direct property of the model yields
   *  exactly one member map, whatever the property's type, configured by
   *  the look-ups of that name. */
  lemma FlatFieldYieldsOneMap(schema: Schema, model: Ty, fields: seq<UserDefinedFieldForCsvMapper>,
                              item: UserDefinedFieldForCsvMapper)
    requires item.fieldName.Some? && item.fieldName.value in Properties(schema, model)
    ensures var name := item.fieldName.value;
            MapsFor(schema, model, fields, item) ==
              Ok([MemberMap([name], Properties(schema, model)[name], GetUserDefinedFieldName(fields, name),
                            ShouldIgnore(fields, name), GetIndex(fields, name))])
  {
  }

  /** Two fields carrying the same direct-property name map that member
   *  once: the second registration finds the first map and configures it
   *  again, with the same settings. */
  lemma DuplicateFieldMapsOnce(schema: Schema, model: Ty, fields: seq<UserDefinedFieldForCsvMapper>,
                               a: UserDefinedFieldForCsvMapper, b: UserDefinedFieldForCsvMapper)
    requires a.fieldName.Some? && b.fieldName == a.fieldName
    requires a.fieldName.value in Properties(schema, model)
    ensures var name := a.fieldName.value;
            Assemble(schema, model, fields, [a, b]) ==
              Ok([Configured(fields, [name], Properties(schema, model)[name], name)])
  {
    var name := a.fieldName.value;
    var c := Configured(fields, [name], Properties(schema, model)[name], name);
    FlatFieldYieldsOneMap(schema, model, fields, a);
    FlatFieldYieldsOneMap(schema, model, fields, b);
    RegisterSame(c);
    var once := RegisterAll([], [c]);
    calc {
      Assemble(schema, model, fields, [a, b]);
      AssembleFrom(schema, model, fields, once, [a, b][1..]);
      { assert [a, b][1..] == [b]; }
      AssembleFrom(schema, model, fields, once, [b]);
      AssembleFrom(schema, model, fields, [c], [b][1..]);
      { assert [b][1..] == []; }
      Ok([c]);
    }
  }

  /** A nested name: GetProp throws when a segment before the last is not
   *  declared exactly as spelled; GetMemberExpression, binding each segment
   *  ignoring case, throws when a segment has no case variant or several.
   *  Otherwise the iteration adds one member map if the bound leaf is a
   *  string or a DateTime, none for any other type (a decimal leaf, say, is
   *  skipped without an error). The map follows the members as bound, in
   *  their declared spelling, and carries the leaf's type. */
  lemma NestedFieldMapsOnlyStringOrDateTime(schema: Schema, model: Ty, fields: seq<UserDefinedFieldForCsvMapper>,
                                            item: UserDefinedFieldForCsvMapper)
    requires item.fieldName.Some? && item.fieldName.value !in Properties(schema, model)
    ensures var name := item.fieldName.value;
            var segments := Split(name, Dot);
            var owner := ResolveOwner(schema, model, segments);
            var p := ResolvePathIgnoringCase(schema, model, segments);
            var r := MapsFor(schema, model, fields, item);
            && (owner.None? ==> r == Err(NullReferenceException))
            && (owner.Some? && p.Err? ==> r == Err(p.error))
            && (r.Ok? <==> owner.Some? && p.Ok?)
            && (r.Ok? ==> (|r.value| == 1 <==> p.value.leaf == Str || p.value.leaf == DateTime))
            && (r.Ok? && |r.value| == 1 ==> r.value[0] == Configured(fields, p.value.names, p.value.leaf, name))
  {
    var name := item.fieldName.value;
    GetPropResolvesOwner(schema, model, name);
    GetMemberExpressionResolvesPath(schema, Parameter(model), name);
  }

  /** A field whose name is null: Type.GetProperty(null) throws, and the
   *  builder returns no class map if the fields before it succeed. */
  lemma NullFieldNameThrows(schema: Schema, model: Ty, fields: seq<UserDefinedFieldForCsvMapper>,
                            items: seq<UserDefinedFieldForCsvMapper>, k: nat)
    requires k < |items| && items[k].fieldName.None?
    requires forall j :: 0 <= j < k ==> MapsFor(schema, model, fields, items[j]).Ok?
    ensures Assemble(schema, model, fields, items) == Err(ArgumentNullException)
  {
    AssembleStopsAtFailure(schema, model, fields, [], items, k);
  }

  /** DefaultClassMap<TModel>: the member maps registered so far. */
  class DefaultClassMap {
    var memberMaps: seq<MemberMap>

    constructor ()
      ensures memberMaps == []
    {
      memberMaps := [];
    }

    /** Map(member) with the configuration calls on the map it returns: the
     *  existing map of that member is configured again in its place, or a
     *  new one is added after the others. */
    method Map(m: MemberMap)
      modifies this
      ensures memberMaps == Upsert(old(memberMaps), m)
    {
      var existing := FindMap(memberMaps, m.path);
      if existing.Some? {
        memberMaps := memberMaps[existing.value := m];
      } else {
        memberMaps := memberMaps + [m];
      }
    }
  }

  /** One pass of the loop of BuildDynamicCsvClassMap: the item's whole
   *  name is a direct property, mapped whatever its type; or it is resolved
   *  through GetProp and GetMemberExpression and mapped only when its leaf
   *  is a string or a DateTime. It registers what MapsFor yields, or
   *  returns the exception MapsFor throws and leaves the class map as it
   *  was. */
  method MapField(schema: Schema, t: Ty, fields: seq<UserDefinedFieldForCsvMapper>,
                  item: UserDefinedFieldForCsvMapper, defaultClassMap: DefaultClassMap)
    returns (error: Option<Exception>)
    modifies defaultClassMap
    ensures error.Some? ==> MapsFor(schema, t, fields, item) == Err(error.value)
    ensures error.Some? ==> defaultClassMap.memberMaps == old(defaultClassMap.memberMaps)
    ensures error.None? ==> MapsFor(schema, t, fields, item).Ok?
    ensures error.None? ==>
              defaultClassMap.memberMaps == RegisterAll(old(defaultClassMap.memberMaps), MapsFor(schema, t, fields, item).value)
  {
    if item.fieldName.None? {
      return Some(ArgumentNullException);
    }
    var name := item.fieldName.value;
    var member := GetProperty(schema, t, name);
    if member.Some? {
      ghost var before := defaultClassMap.memberMaps;
      var m := Configured(fields, [name], member.value, name);
      defaultClassMap.Map(m);
      assert RegisterAll(before, [m]) == Upsert(before, m) by {
        assert [m][1..] == [];
      }
      return None;
    }
    var recursivePropertyRetrieval := GetProp(schema, t, name);
    if recursivePropertyRetrieval.Err? {
      return Some(recursivePropertyRetrieval.error);
    }
    var memberExpression := GetMemberExpression(schema, Parameter(t), name);
    if memberExpression.Err? {
      return Some(memberExpression.error);
    }
    var m := memberExpression.value;
    var returnsString := m.memberType == Str;
    var returnsDateTime := m.memberType == DateTime;
    ghost var before := defaultClassMap.memberMaps;
    ghost var added :=
      (if returnsString then [Configured(fields, Path(m), Str, name)] else [])
      + (if returnsDateTime then [Configured(fields, Path(m), DateTime, name)] else []);
    assert MapsFor(schema, t, fields, item) == Ok(added);
    if returnsString {
      defaultClassMap.Map(Configured(fields, Path(m), Str, name));
    }
    if returnsDateTime {
      defaultClassMap.Map(Configured(fields, Path(m), DateTime, name));
    }
    assert defaultClassMap.memberMaps == RegisterAll(before, added) by {
      if returnsString {
        assert added == [Configured(fields, Path(m), Str, name)];
        assert added[1..] == [];
      } else if returnsDateTime {
        assert added == [Configured(fields, Path(m), DateTime, name)];
        assert added[1..] == [];
      } else {
        assert added == [];
      }
    }
    return None;
  }

  /** BuildDynamicCsvClassMap<TModel>: one pass over the fields in order,
   *  registering member maps in a fresh DefaultClassMap. Its result is the
   *  assembly of all the fields, and it throws the first exception that
   *  assembly meets. */
  method BuildDynamicCsvClassMap(schema: Schema, model: TypeName, fields: seq<UserDefinedFieldForCsvMapper>)
    returns (r: Result<DefaultClassMap, Exception>)
    ensures r.Ok? ==> fresh(r.value) && Assemble(schema, Named(model), fields, fields) == Ok(r.value.memberMaps)
    ensures r.Err? ==> Assemble(schema, Named(model), fields, fields) == Err(r.error)
  {
    var defaultClassMap := new DefaultClassMap();
    var t := Named(model);
    assert fields[0..] == fields;
    for i := 0 to |fields|
      invariant fresh(defaultClassMap)
      invariant AssembleFrom(schema, t, fields, defaultClassMap.memberMaps, fields[i..]) == Assemble(schema, t, fields, fields)
    {
      assert fields[i..][0] == fields[i];
      assert fields[i..][1..] == fields[i + 1..];
      var error := MapField(schema, t, fields, fields[i], defaultClassMap);
      if error.Some? {
        return Err(error.value);
      }
    }
    return Ok(defaultClassMap);
  }
}
