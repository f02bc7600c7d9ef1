/**
 * The "has resolution" leaf of the filter-expression tree: it passes when any of
 * an entity's files has the requested video resolution. It is neither time- nor
 * user-dependent, and it has value equality with a hash kept in step.
 */
module ResolutionFilter {

  /**
   * The part of equality and hashing that the base expression class contributes.
   * Its definition is not part of this model: it is an opaque kind, equal exactly
   * when the kinds are equal.
   */
  datatype BaseKind = BaseKind(kind: string)

  /** The read-only view of one library entity that the leaf queries. */
  datatype Filterable = Filterable(resolutions: set<string>)

  /** The per-user view; this leaf never looks at it. */
  datatype FilterableUserInfo = FilterableUserInfo(userID: int, watched: set<int>)

  /** The runtime type of an instance: the leaf class itself, or a class derived from it. */
  datatype ExpressionType = Exact | Derived(name: string)

  /** An instance of the leaf (or of a derived class) with its string parameter. */
  datatype HasResolutionExpression =
    HasResolutionExpression(runtimeType: ExpressionType, base: BaseKind, parameter: string)

  /** Any value typed as `object`: null, an instance of the leaf, or an object of an unrelated class. */
  datatype Obj = Null | Expression(expr: HasResolutionExpression) | Unrelated(className: string)

  /** `GetType()` of a non-null object. */
  datatype RuntimeType = ExpressionClass(t: ExpressionType) | OtherClass(name: string)

  function TypeOf(o: Obj): RuntimeType
    requires !o.Null?
  {
    match o
    case Expression(e) => ExpressionClass(e.runtimeType)
    case Unrelated(name) => OtherClass(name)
  }

  // ---------------------------------------------------------------------------
  // Flags, help text and evaluation
  // ---------------------------------------------------------------------------

  /** The verdict never changes with the passing of time alone. */
  predicate TimeDependent(e: HasResolutionExpression) {
    false
  }

  /** The verdict never differs between viewing users. */
  predicate UserDependent(e: HasResolutionExpression) {
    false
  }

  /** The resolutions offered to the user as values for the parameter. */
  function HelpPossibleParameters(): (r: seq<string>)
    ensures |r| == 10
  {
    ["2160p", "1080p", "720p", "480p", "UWHD", "UWQHD", "1440p", "576p", "360p", "240p"]
  }

  /** Passes when the entity's set of file resolutions contains the parameter. */
  predicate Evaluate(e: HasResolutionExpression, filterable: Filterable, userInfo: FilterableUserInfo) {
    e.parameter in filterable.resolutions
  }

  // ---------------------------------------------------------------------------
  // Equality and hashing
  // ---------------------------------------------------------------------------

  /** `base.Equals(other)`: equal for equal kinds. */
  predicate BaseEquals(a: BaseKind, b: BaseKind) {
    a == b
  }

  /** The typed `Equals(HasResolutionExpression other)`: equal base part and equal parameter. */
  predicate EqualsTyped(e: HasResolutionExpression, other: HasResolutionExpression) {
    BaseEquals(e.base, other.base) && e.parameter == other.parameter
  }

  /**
   * The overriding `Equals(object obj)`: false for null, true for the same
   * object, false for a different runtime type, else the typed comparison.
   * Identity of references is taken as identity of values.
   */
  predicate Equals(e: HasResolutionExpression, obj: Obj) {
    if obj.Null? then false
    else if obj == Expression(e) then true
    else if TypeOf(obj) != ExpressionClass(e.runtimeType) then false
    else EqualsTyped(e, obj.expr)
  }

  /**
   * The static `object.Equals(left, right)` behind `operator ==`: true for the
   * same reference (two nulls included), false when just one side is null,
   * else `left.Equals(right)`.
   */
  predicate OperatorEquals(left: Obj, right: Obj)
    requires !left.Unrelated? && !right.Unrelated?
  {
    if left == right then true
    else if left.Null? || right.Null? then false
    else Equals(left.expr, right)
  }

  /** `operator !=`. */
  predicate OperatorNotEquals(left: Obj, right: Obj)
    requires !left.Unrelated? && !right.Unrelated?
  {
    !OperatorEquals(left, right)
  }

  const HashModulus: int := 0x1_0000_0000

  /** A deterministic string hash; its numeric values are not those of the runtime. */
  function StringHash(s: string): (h: int)
    ensures 0 <= h < HashModulus
  {
    if |s| == 0 then 0 else (StringHash(s[..|s| - 1]) * 31 + s[|s| - 1] as int) % HashModulus
  }

  /** The base part's hash code. */
  function BaseHash(b: BaseKind): (h: int)
    ensures 0 <= h < HashModulus
  {
    StringHash(b.kind)
  }

  /** `HashCode.Combine` of two hash codes; its numeric values are not those of the runtime. */
  function Combine(h1: int, h2: int): (h: int)
    ensures 0 <= h < HashModulus
  {
    (h1 * 0x9E37_79B1 + h2) % HashModulus
  }

  /** `GetHashCode()`: combines the base hash with the parameter's hash and nothing else. */
  function GetHashCode(e: HasResolutionExpression): int {
    Combine(BaseHash(e.base), StringHash(e.parameter))
  }

  // ---------------------------------------------------------------------------
  // Properties
  // ---------------------------------------------------------------------------

  /** Neither flag is ever set, whatever the parameter. */
  lemma FlagsConstant(e: HasResolutionExpression)
    ensures !TimeDependent(e) && !UserDependent(e)
  {
  }

  /** Equal expressions carry equal dependency flags. */
  lemma EqualImpliesEqualFlags(e: HasResolutionExpression, obj: Obj)
    requires Equals(e, obj)
    ensures obj.Expression?
    ensures TimeDependent(e) == TimeDependent(obj.expr) && UserDependent(e) == UserDependent(obj.expr)
  {
  }

  /** The verdict is membership of the parameter in the resolution set, whichever user asks. */
  lemma EvaluateIsMembership(e: HasResolutionExpression, f: Filterable, u1: FilterableUserInfo, u2: FilterableUserInfo)
    ensures Evaluate(e, f, u1) <==> e.parameter in f.resolutions
    ensures Evaluate(e, f, u1) == Evaluate(e, f, u2)
  {
  }

  /** Adding resolutions to an entity never makes the leaf fail where it passed. */
  lemma EvaluateMonotone(e: HasResolutionExpression, f: Filterable, g: Filterable, u: FilterableUserInfo)
    requires f.resolutions <= g.resolutions
    ensures Evaluate(e, f, u) ==> Evaluate(e, g, u)
  {
  }

  /** The ten advertised resolutions are pairwise distinct. */
  lemma PossibleParametersDistinct()
    ensures forall i, j :: 0 <= i < j < |HelpPossibleParameters()| ==>
      HelpPossibleParameters()[i] != HelpPossibleParameters()[j]
  {
  }

  /** Null is never equal, and an expression is always equal to itself. */
  lemma EqualsNullAndSelf(e: HasResolutionExpression)
    ensures !Equals(e, Null)
    ensures Equals(e, Expression(e))
  {
  }

  /** The reference shortcut never changes the verdict: equality is exactly type, base and parameter. */
  lemma EqualsCharacterised(e: HasResolutionExpression, obj: Obj)
    ensures Equals(e, obj) <==>
      obj.Expression? && obj.expr.runtimeType == e.runtimeType
      && obj.expr.base == e.base && obj.expr.parameter == e.parameter
  {
  }

  /** An object of another runtime type is never equal, even with the same parameter. */
  lemma DifferentTypeNeverEqual(e: HasResolutionExpression, other: HasResolutionExpression)
    requires other.runtimeType != e.runtimeType
    ensures !Equals(e, Expression(other))
    ensures !Equals(e, Expression(other.(base := e.base, parameter := e.parameter)))
  {
  }

  /** Equality is symmetric and transitive, so it is an equivalence on expressions. */
  lemma EqualsEquivalence(a: HasResolutionExpression, b: HasResolutionExpression, c: HasResolutionExpression)
    ensures Equals(a, Expression(b)) ==> Equals(b, Expression(a))
    ensures Equals(a, Expression(b)) && Equals(b, Expression(c)) ==> Equals(a, Expression(c))
  {
  }

  /** Equal expressions have equal hash codes. */
  lemma EqualImpliesEqualHash(e: HasResolutionExpression, obj: Obj)
    requires Equals(e, obj)
    ensures obj.Expression? && GetHashCode(e) == GetHashCode(obj.expr)
  {
  }

  /** `!=` is the negation of `==`, and `==` on two non-null expressions is `Equals`. */
  lemma OperatorsAgree(left: Obj, right: Obj)
    requires !left.Unrelated? && !right.Unrelated?
    ensures OperatorNotEquals(left, right) == !OperatorEquals(left, right)
    ensures left.Expression? ==> OperatorEquals(left, right) == Equals(left.expr, right)
    ensures left.Null? ==> (OperatorEquals(left, right) <==> right.Null?)
  {
  }
}
