/**
 * Uniform descriptors and the typed ApplyValue specialisations.
 *
 * VarType and its family predicates (IsSignedInteger, IsUnsignedInteger,
 * IsSampler), the native-code mapping FromGLMapping and the per-type tag
 * GetType<T> are declared in a header that is not part of this model; they
 * enter as the fields of a TypeTable, so nothing here depends on a guessed
 * mapping.
 */
module Uniforms {
  import opened Wrappers
  import opened Logging
  import opened GL

  /** A reflected uniform's type tag; Invalid is VarType::INVALID. */
  datatype VarType = Invalid | Tag(code: nat)

  /** The value types T that ApplyValue is specialised for; Other stands for every other T. */
  datatype HostType =
    | Int | UInt
    | Float | Vec2 | Vec3 | Vec4 | Quat
    | IVec2 | IVec3 | IVec4
    | Mat2 | Mat3 | Mat4
    | Other

  datatype TypeTable = TypeTable(
    fromGL: int -> VarType,               // VarType::FromGLMapping
    isSignedInteger: VarType -> bool,     // VarType::IsSignedInteger
    isUnsignedInteger: VarType -> bool,   // VarType::IsUnsignedInteger
    isSampler: VarType -> bool,           // VarType::IsSampler
    typeOf: HostType -> VarType)          // VarType::GetType<T>

  /** Uniform{location, type, count}, a plain value. */
  datatype Uniform = Uniform(location: int, varType: VarType, count: int)

  /** What GetUniform answers for an unknown name. */
  const Sentinel := Uniform(-1, Invalid, 0)

  /** The overload shapes: `const T&`, `const T*, int count`, `const std::vector<T>&`. */
  datatype Argument = One | Array(count: int) | Vector(size: nat)

  datatype ApplyError = Unsupported | TypeMismatch

  /** The element count an overload hands to glUniform*. */
  function ElementCount(arg: Argument): int {
    match arg
    case One => 1
    case Array(n) => n
    case Vector(n) => n
  }

  predicate IsMatrix(t: HostType) {
    t == Mat2 || t == Mat3 || t == Mat4
  }

  /** The std::vector overload is specialised only for these T. */
  predicate HasVectorOverload(t: HostType) {
    t in {Float, Vec2, Vec3, Vec4, Quat, IVec2, IVec3, IVec4}
  }

  /** Components per element (rows for a matrix); a quaternion is four floats. */
  function Arity(t: HostType): nat {
    match t
    case Int | UInt | Float => 1
    case Vec2 | IVec2 | Mat2 => 2
    case Vec3 | IVec3 | Mat3 => 3
    case Vec4 | Quat | IVec4 | Mat4 => 4
    case Other => 0
  }

  predicate HasIntComponents(t: HostType) {
    t == IVec2 || t == IVec3 || t == IVec4
  }

  /** The entry point a supported T is submitted through, from its component kind and arity. */
  function EntryPoint(t: HostType): UniformFn
    requires t != Other
  {
    if t == Int then Uniform1iv
    else if t == UInt then Uniform1uiv
    else if IsMatrix(t) then UniformMatrixFv(Arity(t))
    else if HasIntComponents(t) then UniformIv(Arity(t))
    else UniformFv(Arity(t))
  }

  function Checked(ok: bool, call: UniformCall): Result<UniformCall, ApplyError> {
    if ok then Success(call) else Failure(TypeMismatch)
  }

  /** The exact-tag check shared by every specialisation except int and unsigned int. */
  function Exact(u: Uniform, types: TypeTable, t: HostType, fn: UniformFn, count: int): Result<UniformCall, ApplyError> {
    Checked(u.varType == types.typeOf(t), UniformCall(fn, u.location, count, false))
  }

  /**
   * Uniform::ApplyValue<T> for each specialisation: the assertion on the
   * reflected type (a failed assertion is an error result here) and the
   * glUniform* call it then makes. The generic template logs "Unsupported
   * type" and fails for every T.
   */
  function ApplyValue(u: Uniform, types: TypeTable, t: HostType, arg: Argument): (r: Result<UniformCall, ApplyError>)
    requires arg.Vector? ==> HasVectorOverload(t)
    ensures t == Int ==> (r.Success? <==> types.isSignedInteger(u.varType) || types.isSampler(u.varType))
    ensures t == UInt ==> (r.Success? <==> types.isUnsignedInteger(u.varType) || types.isSampler(u.varType))
    ensures t != Int && t != UInt ==> (r.Success? <==> t != Other && u.varType == types.typeOf(t))
    ensures r.Failure? ==> r.error == if t == Other then Unsupported else TypeMismatch
    ensures r.Success? ==>
      && r.value.fn == EntryPoint(t)
      && r.value.location == u.location
      && r.value.count == (if IsMatrix(t) then 1 else ElementCount(arg))
      && !r.value.transpose
  {
    var n := ElementCount(arg);
    match t
    case Other => Failure(Unsupported)
    case Int => Checked(types.isSignedInteger(u.varType) || types.isSampler(u.varType), UniformCall(Uniform1iv, u.location, n, false))
    case UInt => Checked(types.isUnsignedInteger(u.varType) || types.isSampler(u.varType), UniformCall(Uniform1uiv, u.location, n, false))
    case Float => Exact(u, types, t, UniformFv(1), n)
    case Vec2 => Exact(u, types, t, UniformFv(2), n)
    case Vec3 => Exact(u, types, t, UniformFv(3), n)
    case Vec4 => Exact(u, types, t, UniformFv(4), n)
    case Quat => Exact(u, types, t, UniformFv(4), n)
    case IVec2 => Exact(u, types, t, UniformIv(2), n)
    case IVec3 => Exact(u, types, t, UniformIv(3), n)
    case IVec4 => Exact(u, types, t, UniformIv(4), n)
    // the matrix overloads submit one matrix whatever count says
    case Mat2 => Exact(u, types, t, UniformMatrixFv(2), 1)
    case Mat3 => Exact(u, types, t, UniformMatrixFv(3), 1)
    case Mat4 => Exact(u, types, t, UniformMatrixFv(4), 1)
  }

  /**
   * Applying a value to the GL state: the call goes to whichever program is
   * current, an unsupported T logs an error, and a failed type check submits
   * nothing.
   */
  method Apply(ctx: Context, log: Logger, u: Uniform, types: TypeTable, t: HostType, arg: Argument)
    returns (r: Result<UniformCall, ApplyError>)
    requires ctx.Valid()
    requires arg.Vector? ==> HasVectorOverload(t)
    modifies ctx, log
    ensures ctx.Valid()
    ensures r == ApplyValue(u, types, t, arg)
    ensures ctx.programs == if r.Success? && u.location != -1 && ctx.current in old(ctx.programs)
      then old(ctx.programs)[ctx.current := old(ctx.programs)[ctx.current].(values := old(ctx.programs)[ctx.current].values[u.location := r.value])]
      else old(ctx.programs)
    ensures u.location == -1 ==> ctx.programs == old(ctx.programs)
    ensures log.entries == old(log.entries) + (if t == Other then [UnsupportedType] else [])
    ensures ctx.shaders == old(ctx.shaders) && ctx.current == old(ctx.current)
  {
    r := ApplyValue(u, types, t, arg);
    if t == Other {
      log.Append([UnsupportedType]);
    }
    if r.Success? {
      ctx.SubmitUniform(r.value);
    }
  }
}
