/**
 * The declared type metadata that reflection reads: each named class maps
 * its public property names to their declared types. Only declared types
 * are modelled, never instance values, so nothing here can observe whether
 * an intermediate object would be null at run time.
 *
 * Two lookups are modelled, because the program uses both: Type.GetProperty
 * by exact name, and the IgnoreCase lookup through which
 * Expression.PropertyOrField binds a member.
 */
module TypeModel {
  import opened Wrappers
  import opened DottedNames

  type TypeName = string

  /** A declared property type: the leaf types the program meets, or a class. */
  datatype Ty = Str | Int | Dec | DateTime | Named(name: TypeName)

  /** Declared properties of every class, by class name. */
  type Schema = map<TypeName, map<string, Ty>>

  /** The exceptions that the reflection and expression-tree calls throw. */
  datatype Exception =
    | NullReferenceException
    | ArgumentNullException
    | ArgumentException(owner: Ty, member: string)
    | AmbiguousMatchException

  /** The declared properties of a type; the primitive types are taken to
   *  have none, and so does a class the schema does not describe. */
  function Properties(schema: Schema, t: Ty): map<string, Ty>
  {
    match t
    case Named(n) => if n in schema then schema[n] else map[]
    case _ => map[]
  }

  /** Type.GetProperty(name): the declared property, or null when absent. */
  function GetProperty(schema: Schema, t: Ty, name: string): (p: Option<Ty>)
    ensures p.Some? <==> name in Properties(schema, t)
    ensures p.Some? ==> p.value == Properties(schema, t)[name]
  {
    var props := Properties(schema, t);
    if name in props then Some(props[name]) else None
  }

  // ---------------------------------------------------------------------
  // Lookup ignoring case

  /** The upper case of an ASCII letter; any other character is kept. */
  function UpperAscii(c: char): char
  {
    if 'a' <= c <= 'z' then (c as int - 32) as char else c
  }

  /** Equality of names as an IgnoreCase lookup compares them: same length,
   *  and the same character at every position once both are upper-cased. */
  predicate SameIgnoringCase(a: string, b: string)
    decreases |a|
  {
    if a == [] || b == [] then a == b
    else UpperAscii(a[0]) == UpperAscii(b[0]) && SameIgnoringCase(a[1..], b[1..])
  }

  /** Every name equals itself up to case. */
  lemma {:induction false} SameIgnoringCaseReflexive(a: string)
    ensures SameIgnoringCase(a, a)
    decreases |a|
  {
    if a != [] {
      SameIgnoringCaseReflexive(a[1..]);
    }
  }

  /** Names equal up to case have the same length. */
  lemma {:induction false} SameIgnoringCaseLength(a: string, b: string)
    requires SameIgnoringCase(a, b)
    ensures |a| == |b|
    decreases |a|
  {
    if a != [] && b != [] {
      SameIgnoringCaseLength(a[1..], b[1..]);
    }
  }

  /** The declared properties of t whose names equal name up to case. */
  function CaseVariants(schema: Schema, t: Ty, name: string): set<string>
  {
    set n | n in Properties(schema, t) && SameIgnoringCase(n, name)
  }

  /** A set of one element has no two different elements. */
  lemma OnlyElement<T>(s: set<T>)
    requires |s| == 1
    ensures exists x :: x in s
    ensures forall x, y :: x in s && y in s ==> x == y
  {
    var z :| z in s;
    assert s - {z} == {} by {
      assert |s - {z}| == 0;
    }
  }

  /** Type.GetProperty(name, BindingFlags.IgnoreCase | ...): the declared
   *  name of the one property that equals name up to case; null when there
   *  is none; AmbiguousMatchException when there are several. */
  function GetPropertyIgnoreCase(schema: Schema, t: Ty, name: string): (r: Result<Option<string>, Exception>)
    ensures r == Ok(None) <==> CaseVariants(schema, t, name) == {}
    ensures r.Err? <==> |CaseVariants(schema, t, name)| > 1
    ensures r.Err? ==> r.error == AmbiguousMatchException
    ensures r.Ok? && r.value.Some? ==> CaseVariants(schema, t, name) == {r.value.value}
  {
    var candidates := CaseVariants(schema, t, name);
    if |candidates| == 0 then Ok(None)
    else if |candidates| > 1 then Err(AmbiguousMatchException)
    else
      OnlyElement(candidates);
      assert exists n :: n in candidates;
      var n :| n in candidates;
      Ok(Some(n))
  }

  /** No class declares two properties whose names differ only in case. */
  ghost predicate CaseDistinctProperties(props: map<string, Ty>)
  {
    forall a, b :: a in props && b in props && SameIgnoringCase(a, b) ==> a == b
  }

  ghost predicate CaseDistinct(schema: Schema)
  {
    forall n :: n in schema ==> CaseDistinctProperties(schema[n])
  }

  /** In a schema without case clashes, a name that is declared exactly is
   *  bound to itself by the IgnoreCase lookup. */
  lemma ExactNameBindsItself(schema: Schema, t: Ty, name: string)
    requires CaseDistinct(schema) && name in Properties(schema, t)
    ensures GetPropertyIgnoreCase(schema, t, name) == Ok(Some(name))
  {
    assert CaseDistinctProperties(Properties(schema, t));
    SameIgnoringCaseReflexive(name);
    assert CaseVariants(schema, t, name) == {name};
  }

  // ---------------------------------------------------------------------
  // Resolution of a dotted path, by each lookup

  /** The type reached from root by following every segment but the last,
   *  each looked up by its exact name: the type the last segment is looked
   *  up on. None when a segment on the way is not declared. */
  function ResolveOwner(schema: Schema, root: Ty, segments: seq<string>): Option<Ty>
    requires |segments| >= 1
    decreases |segments|
  {
    if |segments| == 1 then Some(root)
    else
      match GetProperty(schema, root, segments[0])
      case None => None
      case Some(t) => ResolveOwner(schema, t, segments[1..])
  }

  /** A path bound segment by segment: the declared names of the members,
   *  the type that owns the last one, and that one's declared type. */
  datatype Resolved = Resolved(names: seq<string>, owner: Ty, leaf: Ty)

  /** Resolution of a path with every segment bound ignoring case. A
   *  segment with no case variant fails with ArgumentException, one with
   *  several with AmbiguousMatchException; the first such segment decides. */
  function ResolvePathIgnoringCase(schema: Schema, root: Ty, segments: seq<string>): Result<Resolved, Exception>
    requires |segments| >= 1
    decreases |segments|
  {
    match GetPropertyIgnoreCase(schema, root, segments[0])
    case Err(e) => Err(e)
    case Ok(None) => Err(ArgumentException(root, segments[0]))
    case Ok(Some(n)) =>
      var t := Properties(schema, root)[n];
      if |segments| == 1 then Ok(Resolved([n], root, t))
      else
        match ResolvePathIgnoringCase(schema, t, segments[1..])
        case Err(e) => Err(e)
        case Ok(rest) => Ok(rest.(names := [n] + rest.names))
  }

  /** The path resolved ignoring case names one declared member per
   *  segment, each equal to its segment up to case. */
  lemma {:induction false} ResolvedNamesMatchSegments(schema: Schema, root: Ty, segments: seq<string>)
    requires |segments| >= 1
    ensures var p := ResolvePathIgnoringCase(schema, root, segments);
            p.Ok? ==> && |p.value.names| == |segments|
                      && forall k :: 0 <= k < |segments| ==> SameIgnoringCase(p.value.names[k], segments[k])
    decreases |segments|
  {
    var p := ResolvePathIgnoringCase(schema, root, segments);
    if p.Ok? {
      var n := GetPropertyIgnoreCase(schema, root, segments[0]).value.value;
      assert n in CaseVariants(schema, root, segments[0]);
      if |segments| > 1 {
        var t := Properties(schema, root)[n];
        ResolvedNamesMatchSegments(schema, t, segments[1..]);
        var rest := ResolvePathIgnoringCase(schema, t, segments[1..]).value;
        assert p.value.names == [n] + rest.names;
      }
    }
  }

  /** Where every segment is declared exactly, and no class on the way has a
   *  case clash, resolving ignoring case binds the segments as spelled and
   *  reaches the same owner and leaf as the exact lookups. */
  lemma {:induction false} ExactPathResolvesIgnoringCase(schema: Schema, root: Ty, segments: seq<string>)
    requires CaseDistinct(schema) && |segments| >= 1
    ensures var o := ResolveOwner(schema, root, segments);
            var last := segments[|segments| - 1];
            o.Some? && GetProperty(schema, o.value, last).Some? ==>
              ResolvePathIgnoringCase(schema, root, segments) ==
              Ok(Resolved(segments, o.value, GetProperty(schema, o.value, last).value))
    decreases |segments|
  {
    var o := ResolveOwner(schema, root, segments);
    var last := segments[|segments| - 1];
    if o.Some? && GetProperty(schema, o.value, last).Some? {
      if |segments| == 1 {
        ExactNameBindsItself(schema, root, segments[0]);
        assert [segments[0]] == segments;
      } else {
        ExactNameBindsItself(schema, root, segments[0]);
        var t := Properties(schema, root)[segments[0]];
        assert segments[1..][|segments[1..]| - 1] == last;
        ExactPathResolvesIgnoringCase(schema, t, segments[1..]);
        assert [segments[0]] + segments[1..] == segments;
      }
    }
  }

  /** Conversely, where the path resolved ignoring case binds every segment
   *  as spelled, the exact lookups reach the same owner and leaf. */
  lemma {:induction false} ExactlyBoundPathResolvesExactly(schema: Schema, root: Ty, segments: seq<string>)
    requires |segments| >= 1
    ensures var p := ResolvePathIgnoringCase(schema, root, segments);
            var last := segments[|segments| - 1];
            p.Ok? && p.value.names == segments ==>
              && ResolveOwner(schema, root, segments) == Some(p.value.owner)
              && GetProperty(schema, p.value.owner, last) == Some(p.value.leaf)
    decreases |segments|
  {
    var p := ResolvePathIgnoringCase(schema, root, segments);
    if p.Ok? && p.value.names == segments {
      var n := GetPropertyIgnoreCase(schema, root, segments[0]).value.value;
      assert n in CaseVariants(schema, root, segments[0]);
      if |segments| > 1 {
        var t := Properties(schema, root)[n];
        var rest := ResolvePathIgnoringCase(schema, t, segments[1..]).value;
        assert p.value.names == [n] + rest.names;
        assert n == segments[0] && rest.names == segments[1..];
        assert segments[1..][|segments[1..]| - 1] == segments[|segments| - 1];
        ExactlyBoundPathResolvesExactly(schema, t, segments[1..]);
      }
    }
  }

  /** Following the segments of a dotted name by exact lookup: the text
   *  before its first '.' is looked up, then the text after it followed
   *  from the type found; both have the same last segment. */
  lemma ResolveOwnerAtFirstDot(schema: Schema, root: Ty, s: string)
    requires Dot in s
    ensures var i := IndexOf(s, Dot);
            var whole := Split(s, Dot);
            var rest := Split(s[i + 1..], Dot);
            && whole[|whole| - 1] == rest[|rest| - 1]
            && ResolveOwner(schema, root, whole) ==
               match GetProperty(schema, root, s[..i])
               case None => None
               case Some(t) => ResolveOwner(schema, t, rest)
  {
    SplitAtFirst(s, Dot);
  }

  /** Resolving the segments of a dotted name ignoring case binds the text
   *  before its first '.', then resolves the text after it from the type
   *  found. */
  lemma ResolvePathIgnoringCaseAtFirstDot(schema: Schema, root: Ty, s: string)
    requires Dot in s
    ensures var i := IndexOf(s, Dot);
            ResolvePathIgnoringCase(schema, root, Split(s, Dot)) ==
            match GetPropertyIgnoreCase(schema, root, s[..i])
            case Err(e) => Err(e)
            case Ok(None) => Err(ArgumentException(root, s[..i]))
            case Ok(Some(n)) =>
              match ResolvePathIgnoringCase(schema, Properties(schema, root)[n], Split(s[i + 1..], Dot))
              case Err(e) => Err(e)
              case Ok(rest) => Ok(rest.(names := [n] + rest.names))
  {
    SplitAtFirst(s, Dot);
  }
}
