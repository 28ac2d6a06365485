/**
 * ParameterExpressionExtensions.GetMemberExpression: builds the member
 * access chain `param.A.B.C` for the dotted name "A.B.C", cutting the name
 * at its first '.' and recursing on the rest.
 */
module ParameterExpressionExtensions {
  import opened Wrappers
  import opened TypeModel
  import opened DottedNames

  /** The fragment of an expression tree the resolver builds: a typed
   *  parameter, and a property access on an inner expression. */
  datatype Expression =
    | Parameter(paramType: Ty)
    | MemberAccess(inner: Expression, member: string, memberType: Ty)

  /** Expression.Type */
  function TypeOf(e: Expression): Ty
  {
    match e
    case Parameter(t) => t
    case MemberAccess(_, _, t) => t
  }

  /** The member names accessed, from the parameter outwards. */
  function Path(e: Expression): seq<string>
  {
    match e
    case Parameter(_) => []
    case MemberAccess(inner, m, _) => Path(inner) + [m]
  }

  /** The parameter at the bottom of the chain. */
  function Base(e: Expression): Expression
  {
    match e
    case Parameter(_) => e
    case MemberAccess(inner, _, _) => Base(inner)
  }

  /** Every access in the chain names a declared property of the type of
   *  the expression it is applied to, and carries that property's type. */
  predicate WellTyped(schema: Schema, e: Expression)
  {
    match e
    case Parameter(_) => true
    case MemberAccess(inner, m, t) =>
      GetProperty(schema, TypeOf(inner), m) == Some(t) && WellTyped(schema, inner)
  }

  /** Expression.PropertyOrField: an access to the member of the
   *  expression's type whose name equals name up to case, carrying that
   *  member's declared name and type; ArgumentException when no member
   *  matches, AmbiguousMatchException when several do. */
  function PropertyOrField(schema: Schema, e: Expression, name: string): (r: Result<Expression, Exception>)
    ensures r.Ok? <==> |CaseVariants(schema, TypeOf(e), name)| == 1
    ensures r.Ok? ==> && r.value.MemberAccess? && r.value.inner == e
                      && CaseVariants(schema, TypeOf(e), name) == {r.value.member}
    ensures r.Ok? ==> && r.value.member in Properties(schema, TypeOf(e))
                      && r.value.memberType == Properties(schema, TypeOf(e))[r.value.member]
    ensures r.Ok? && WellTyped(schema, e) ==> WellTyped(schema, r.value)
    ensures r.Err? ==> r.error == if CaseVariants(schema, TypeOf(e), name) == {}
                                  then ArgumentException(TypeOf(e), name)
                                  else AmbiguousMatchException
  {
    match GetPropertyIgnoreCase(schema, TypeOf(e), name)
    case Err(x) => Err(x)
    case Ok(None) => Err(ArgumentException(TypeOf(e), name))
    case Ok(Some(n)) =>
      assert n in CaseVariants(schema, TypeOf(e), name);
      Ok(MemberAccess(e, n, Properties(schema, TypeOf(e))[n]))
  }

  /** The private recursive GetMemberExpression(Expression, string): a name
   *  without '.' is one member lookup on param; otherwise the text before
   *  the first '.' is looked up and the rest resolved from the access it
   *  gives. Each recursive call gets a strictly shorter name. What the
   *  chain holds is stated by the two lemmas below. */
  function GetMemberExpressionFrom(schema: Schema, param: Expression, propertyName: string)
    : (r: Result<Expression, Exception>)
    ensures r.Ok? ==> r.value.MemberAccess?
    ensures r.Err? ==> r.error.ArgumentException? || r.error == AmbiguousMatchException
    decreases |propertyName|
  {
    if Dot !in propertyName then
      PropertyOrField(schema, param, propertyName)
    else
      var index := IndexOf(propertyName, Dot);
      match PropertyOrField(schema, param, propertyName[..index])
      case Err(e) => Err(e)
      case Ok(subParam) => GetMemberExpressionFrom(schema, subParam, propertyName[index + 1..])
  }

  /** One step of both resolutions on a dotted name: each binds the text
   *  before the first '.' with PropertyOrField, fails as it does, and
   *  otherwise goes on from the access it gives with the text after it. */
  lemma FirstSegmentStep(schema: Schema, param: Expression, propertyName: string)
    requires Dot in propertyName
    ensures var index := IndexOf(propertyName, Dot);
            var suffix := propertyName[index + 1..];
            var sub := PropertyOrField(schema, param, propertyName[..index]);
            && GetMemberExpressionFrom(schema, param, propertyName) ==
               (match sub
                case Err(e) => Err(e)
                case Ok(x) => GetMemberExpressionFrom(schema, x, suffix))
            && ResolvePathIgnoringCase(schema, TypeOf(param), Split(propertyName, Dot)) ==
               (match sub
                case Err(e) => Err(e)
                case Ok(x) => Prepend(x.member, ResolvePathIgnoringCase(schema, TypeOf(x), Split(suffix, Dot))))
  {
    ResolvePathIgnoringCaseAtFirstDot(schema, TypeOf(param), propertyName);
  }

  /** A resolution with one more member bound in front. */
  function Prepend(member: string, q: Result<Resolved, Exception>): Result<Resolved, Exception>
  {
    match q
    case Err(e) => Err(e)
    case Ok(rest) => Ok(rest.(names := [member] + rest.names))
  }

  /** The chain r, built from param, agrees with the resolution p: both
   *  succeed or neither does; on success r is a member access that extends
   *  param by one access per name bound, ending at the owner and the leaf type found; otherwise both
   *  carry the same exception. */
  predicate Alike(param: Expression, r: Result<Expression, Exception>, p: Result<Resolved, Exception>)
  {
    && (r.Ok? <==> p.Ok?)
    && (r.Ok? ==> && r.value.MemberAccess?
                  && Path(r.value) == Path(param) + p.value.names
                  && TypeOf(r.value.inner) == p.value.owner
                  && r.value.memberType == p.value.leaf)
    && (r.Err? ==> r.error == p.error)
  }

  /** A chain that agrees with q from the access x agrees, from x's inner
   *  expression, with q with x's member bound in front. */
  lemma AlikeAfterAccess(param: Expression, x: Expression, r: Result<Expression, Exception>, q: Result<Resolved, Exception>)
    requires x.MemberAccess? && x.inner == param && Alike(x, r, q)
    ensures Alike(param, r, Prepend(x.member, q))
  {
    if r.Ok? {
      assert Path(r.value) == (Path(param) + [x.member]) + q.value.names;
      assert (Path(param) + [x.member]) + q.value.names == Path(param) + ([x.member] + q.value.names);
    }
  }

  /** GetMemberExpressionFrom binds the segments of the name as
   *  ResolvePathIgnoringCase does. */
  predicate ResolvesAlike(schema: Schema, param: Expression, propertyName: string)
  {
    Alike(param, GetMemberExpressionFrom(schema, param, propertyName),
          ResolvePathIgnoringCase(schema, TypeOf(param), Split(propertyName, Dot)))
  }

  /** If the rest of a dotted name resolves alike from the access its first
   *  segment gives, the whole name resolves alike. */
  lemma ResolvesAlikeStep(schema: Schema, param: Expression, propertyName: string)
    requires Dot in propertyName
    requires var index := IndexOf(propertyName, Dot);
             var sub := PropertyOrField(schema, param, propertyName[..index]);
             sub.Ok? ==> ResolvesAlike(schema, sub.value, propertyName[index + 1..])
    ensures ResolvesAlike(schema, param, propertyName)
  {
    var index := IndexOf(propertyName, Dot);
    var suffix := propertyName[index + 1..];
    FirstSegmentStep(schema, param, propertyName);
    var sub := PropertyOrField(schema, param, propertyName[..index]);
    if sub.Ok? {
      var x := sub.value;
      AlikeAfterAccess(param, x, GetMemberExpressionFrom(schema, x, suffix),
                       ResolvePathIgnoringCase(schema, TypeOf(x), Split(suffix, Dot)));
    }
  }

  /** The recursive resolver agrees with the reference resolution over the
   *  segments of the name, for every name. */
  lemma {:induction false} GetMemberExpressionResolvesPath(schema: Schema, param: Expression, propertyName: string)
    ensures ResolvesAlike(schema, param, propertyName)
    decreases |propertyName|
  {
    if Dot !in propertyName {
      assert Split(propertyName, Dot) == [propertyName];
    } else {
      var index := IndexOf(propertyName, Dot);
      var sub := PropertyOrField(schema, param, propertyName[..index]);
      if sub.Ok? {
        GetMemberExpressionResolvesPath(schema, sub.value, propertyName[index + 1..]);
      }
      ResolvesAlikeStep(schema, param, propertyName);
    }
  }

  /** On success the chain hangs from the same root as param, and every
   *  access it adds is to a declared property of its declared type. */
  lemma {:induction false} GetMemberExpressionWellTyped(schema: Schema, param: Expression, propertyName: string)
    ensures var r := GetMemberExpressionFrom(schema, param, propertyName);
            && (r.Ok? ==> Base(r.value) == Base(param))
            && (r.Ok? && WellTyped(schema, param) ==> WellTyped(schema, r.value))
    decreases |propertyName|
  {
    if Dot in propertyName {
      var index := IndexOf(propertyName, Dot);
      var sub := PropertyOrField(schema, param, propertyName[..index]);
      if sub.Ok? {
        GetMemberExpressionWellTyped(schema, sub.value, propertyName[index + 1..]);
      }
    }
  }

  /** The public extension GetMemberExpression(this ParameterExpression,
   *  string): delegates to the recursive function. The chain it returns is
   *  rooted at the parameter, well typed, and holds exactly one access per
   *  segment of the name (one more than the number of dots), each to the
   *  declared member whose name equals that segment up to case. */
  function GetMemberExpression(schema: Schema, param: Expression, propertyName: string)
    : (r: Result<Expression, Exception>)
    requires param.Parameter?
    ensures r == GetMemberExpressionFrom(schema, param, propertyName)
    ensures r.Ok? ==> Base(r.value) == param && WellTyped(schema, r.value)
    ensures r.Ok? ==> |Path(r.value)| == |Split(propertyName, Dot)| == Occurrences(propertyName, Dot) + 1
    ensures r.Ok? ==> forall k :: 0 <= k < |Path(r.value)| ==>
                        SameIgnoringCase(Path(r.value)[k], Split(propertyName, Dot)[k])
  {
    SplitCount(propertyName, Dot);
    GetMemberExpressionResolvesPath(schema, param, propertyName);
    ResolvedNamesMatchSegments(schema, TypeOf(param), Split(propertyName, Dot));
    GetMemberExpressionWellTyped(schema, param, propertyName);
    GetMemberExpressionFrom(schema, param, propertyName)
  }
}
