/**
  The read-only scene graph the shading queries run against: a Stage maps prim
  Paths to Prims; a Prim has attributes (properties) and material-binding
  relationships. The concrete Stage/Prim/Path classes and the type-erased
  `value::Value` of the system are replaced by these closed datatypes.
 */
module Scene {
  import opened Wrappers

  /** An absolute prim path as its list of name components: `/xform/mesh0` is
      ["xform", "mesh0"]; the pseudo-root `/` is []. */
  type Path = seq<string>

  /** The path of the parent prim (one component shorter). */
  function Parent(p: Path): (q: Path)
    requires |p| > 0
    ensures |q| == |p| - 1 && q == p[..|q|]
  {
    p[..|p| - 1]
  }

  /** The path of an attribute: its prim's path and the property name
      (`/mat/tex.outputs:rgb` is AttrPath(["mat", "tex"], "outputs:rgb")). */
  datatype AttrPath = AttrPath(prim: Path, name: string)

  /** The value types a shader attribute is read as (the `T` of the typed query). */
  datatype ValueType =
    | FloatType | Float2Type | Float3Type | Float4Type | Matrix2fType
    | IntType | BoolType | TokenType

  /** A stored value: a closed tagged union in place of the type-erased value. */
  datatype Value =
    | FloatValue(x: real)
    | Float2Value(x: real, y: real)
    | Float3Value(x: real, y: real, z: real)
    | Float4Value(x: real, y: real, z: real, w: real)
    | Matrix2fValue(m00: real, m01: real, m10: real, m11: real)
    | IntValue(i: int)
    | BoolValue(b: bool)
    | TokenValue(token: string)

  function TypeOf(v: Value): ValueType
  {
    match v
    case FloatValue(_) => FloatType
    case Float2Value(_, _) => Float2Type
    case Float3Value(_, _, _) => Float3Type
    case Float4Value(_, _, _, _) => Float4Type
    case Matrix2fValue(_, _, _, _) => Matrix2fType
    case IntValue(_) => IntType
    case BoolValue(_) => BoolType
    case TokenValue(_) => TokenType
  }

  /** A time coordinate: the `Default` (non-animated) sentinel or a time. */
  datatype TimeCode = DefaultTime | TimeAt(t: real)

  /** Time samples as stored: (time, value) pairs. */
  datatype TimeSamples = TimeSamples(samples: seq<(real, Value)>)

  /** The storage layer's sample query at a time code, with its own
      interpolation or clamping policy; None when it can produce no value. */
  type Sampler = (TimeSamples, TimeCode) -> Option<Value>

  /** An attribute holds exactly one of: a value, time samples, or a
      connection to another attribute. */
  datatype Attribute =
    | ValueAttr(value: Value)
    | SampledAttr(samples: TimeSamples)
    | ConnectionAttr(target: AttrPath)

  /** The targets of a binding relationship: one Material path for a direct
      binding, or the members reported by the scene layer for a binding in
      the `collection` namespace. */
  datatype BindingTargets = Direct(target: Path) | Collection(members: seq<Path>)

  /** A `material:binding...` relationship with its optional `bindMaterialAs`
      metadatum. */
  datatype BindingRel = BindingRel(targets: BindingTargets, bindMaterialAs: Option<string>)

  datatype PrimKind = MaterialPrim | ShaderPrim | OtherPrim

  /** A prim: its kind, its attributes by name, its binding relationships by
      full relationship name. */
  datatype Prim = Prim(kind: PrimKind, props: map<string, Attribute>, bindings: map<string, BindingRel>)

  type Stage = map<Path, Prim>

  /** The attribute at `ap`, if its prim and property both exist. */
  function LookupAttr(stage: Stage, ap: AttrPath): Option<Attribute>
  {
    if ap.prim in stage && ap.name in stage[ap.prim].props
    then Some(stage[ap.prim].props[ap.name])
    else None
  }

  /** Every attribute path of the stage: a finite set, so a walk that never
      revisits one of them must stop. */
  function AttrPaths(stage: Stage): (all: set<AttrPath>)
    ensures forall ap :: LookupAttr(stage, ap).Some? <==> ap in all
  {
    set p, n | p in stage && n in stage[p].props :: AttrPath(p, n)
  }
}
