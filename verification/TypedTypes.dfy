/**
 Type references of resolver schemas: a nested type is flattened to its name, the nullability
 of the named type and its list wrappers from innermost to outermost, and rendered as a
 TypeScript type by a loop over the wrappers.
 */
module TypedTypes {
  import opened Common

  datatype TypeNode = Named(name: string, nullable: bool) | ListOf(inner: TypeNode, nullable: bool)

  datatype ListWrapper = NullableList | NonNullList

  datatype Flat = Flat(name: string, innerIsNullable: bool, wrappers: seq<ListWrapper>)

  function TypeFromNested(ty: TypeNode): Flat {
    match ty
    case Named(name, nullable) => Flat(name, nullable, [])
    case ListOf(inner, nullable) =>
      var flat := TypeFromNested(inner);
      flat.(wrappers := flat.wrappers + [if nullable then NullableList else NonNullList])
  }

  /** The nested type that a flat one stands for. */
  function Nested(flat: Flat): TypeNode
    decreases |flat.wrappers|
  {
    var n := |flat.wrappers|;
    if n == 0 then Named(flat.name, flat.innerIsNullable)
    else ListOf(Nested(flat.(wrappers := flat.wrappers[..n - 1])), flat.wrappers[n - 1] == NullableList)
  }

  /** Flattening loses nothing. */
  lemma {:induction false} FlatteningIsLossless(ty: TypeNode)
    ensures Nested(TypeFromNested(ty)) == ty
  {
    match ty
    case Named(_, _) =>
    case ListOf(inner, _) =>
      FlatteningIsLossless(inner);
      var flat, outer := TypeFromNested(inner), TypeFromNested(ty);
      assert outer.(wrappers := outer.wrappers[..|flat.wrappers|]) == flat;
  }

  /** Every flat type is the flattening of its nested type. */
  lemma {:induction false} FlatteningIsOnto(flat: Flat)
    ensures TypeFromNested(Nested(flat)) == flat
    decreases |flat.wrappers|
  {
    var n := |flat.wrappers|;
    if n > 0 {
      FlatteningIsOnto(flat.(wrappers := flat.wrappers[..n - 1]));
      assert flat.wrappers == flat.wrappers[..n - 1] + [flat.wrappers[n - 1]];
    }
  }

  // ----- Names -----

  datatype BuiltinScalar =
    | Int | Float | Str | Boolean | Id
    | Email | Date | DateTime | IPAddress | Timestamp | Url | Json | PhoneNumber | Decimal | Bytes | BigInt

  function Builtin(name: string): Option<BuiltinScalar> {
    match name
    case "String" => Some(Str)
    case "Int" => Some(Int)
    case "Float" => Some(Float)
    case "Boolean" => Some(Boolean)
    case "ID" => Some(Id)
    case "Email" => Some(Email)
    case "Date" => Some(Date)
    case "DateTime" => Some(DateTime)
    case "IPAddress" => Some(IPAddress)
    case "Timestamp" => Some(Timestamp)
    case "Url" => Some(Url)
    case "Json" => Some(Json)
    case "PhoneNumber" => Some(PhoneNumber)
    case "Decimal" => Some(Decimal)
    case "Bytes" => Some(Bytes)
    case "BigInt" => Some(BigInt)
    case _ => None
  }

  datatype Definition = CustomScalar(id: nat) | Enum(id: nat) | Object(id: nat) | Union(id: nat)

  datatype Kind = Scalar(scalar: BuiltinScalar) | Defined(definition: Definition)

  datatype GraphqlType = GraphqlType(kind: Kind, innerIsNullable: bool, wrappers: seq<ListWrapper>)

  /** Builtin scalars come first; any other name must be defined. */
  function Resolve(ty: TypeNode, names: map<string, Definition>): Option<GraphqlType> {
    var flat := TypeFromNested(ty);
    if Builtin(flat.name).Some? then
      Some(GraphqlType(Scalar(Builtin(flat.name).value), flat.innerIsNullable, flat.wrappers))
    else if flat.name in names then Some(GraphqlType(Defined(names[flat.name]), flat.innerIsNullable, flat.wrappers))
    else None
  }

  // ----- Rendering -----

  const NULLABLE := " | null"
  const ARRAY := "Array<"

  function ScalarName(scalar: BuiltinScalar): string {
    match scalar
    case Int | Float | BigInt | Timestamp => "number"
    case Json => "any"
    case Boolean => "boolean"
    case _ => "string"
  }

  function DefinitionName(name: string): string {
    "Schema['" + name + "']"
  }

  function Wrap(text: string, wrapper: ListWrapper): string {
    match wrapper
    case NullableList => ARRAY + text + ">" + NULLABLE
    case NonNullList => ARRAY + text + ">"
  }

  function Wrapped(text: string, wrappers: seq<ListWrapper>, n: nat): string
    requires n <= |wrappers|
  {
    if n == 0 then text else Wrap(Wrapped(text, wrappers, n - 1), wrappers[n - 1])
  }

  /** Renders a resolved type: the string is wrapped once for every list, from the inside out. */
  method RenderGraphqlType(ty: GraphqlType, nameOf: Definition -> string) returns (text: string)
    ensures text == Rendered(ty, nameOf)
  {
    text := match ty.kind
      case Scalar(scalar) => ScalarName(scalar)
      case Defined(definition) => DefinitionName(nameOf(definition));
    if ty.innerIsNullable {
      text := text + NULLABLE;
    }
    ghost var inner := text;
    for i := 0 to |ty.wrappers|
      invariant text == Wrapped(inner, ty.wrappers, i)
    {
      text := match ty.wrappers[i]
        case NullableList => ARRAY + text + ">" + NULLABLE
        case NonNullList => ARRAY + text + ">";
    }
  }

  function Rendered(ty: GraphqlType, nameOf: Definition -> string): string {
    var name := match ty.kind
      case Scalar(scalar) => ScalarName(scalar)
      case Defined(definition) => DefinitionName(nameOf(definition));
    Wrapped(if ty.innerIsNullable then name + NULLABLE else name, ty.wrappers, |ty.wrappers|)
  }

  /** Rendering the nested type directly, from the outside in. */
  function Direct(ty: TypeNode): string {
    var text := match ty
      case Named(name, _) => if Builtin(name).Some? then ScalarName(Builtin(name).value) else DefinitionName(name)
      case ListOf(inner, _) => ARRAY + Direct(inner) + ">";
    if ty.nullable then text + NULLABLE else text
  }

  /** Definitions are known by the names they are found under. */
  ghost predicate NamesAgree(names: map<string, Definition>, nameOf: Definition -> string) {
    forall name | name in names :: nameOf(names[name]) == name
  }

  lemma WrappedPrefix(text: string, wrappers: seq<ListWrapper>, more: seq<ListWrapper>, n: nat)
    requires n <= |wrappers| && wrappers <= more
    ensures Wrapped(text, wrappers, n) == Wrapped(text, more, n)
  {
    if n > 0 {
      WrappedPrefix(text, wrappers, more, n - 1);
    }
  }

  /** Resolving succeeds exactly for builtin and defined names, and rendering the resolved type
      is the direct rendering of the type that was written. */
  lemma {:induction false} RenderingIsDirect(ty: TypeNode, names: map<string, Definition>, nameOf: Definition -> string)
    requires NamesAgree(names, nameOf)
    ensures Resolve(ty, names).Some? <==> Builtin(TypeFromNested(ty).name).Some? || TypeFromNested(ty).name in names
    ensures Resolve(ty, names).Some? ==> Rendered(Resolve(ty, names).value, nameOf) == Direct(ty)
  {
    match ty
    case Named(name, _) =>
    case ListOf(inner, nullable) =>
      RenderingIsDirect(inner, names, nameOf);
      if Resolve(inner, names).Some? {
        var sub, whole := Resolve(inner, names).value, Resolve(ty, names).value;
        var n := |sub.wrappers|;
        var name := match whole.kind
          case Scalar(scalar) => ScalarName(scalar)
          case Defined(definition) => DefinitionName(nameOf(definition));
        WrappedPrefix(if whole.innerIsNullable then name + NULLABLE else name, sub.wrappers, whole.wrappers, n);
      }
  }

  // ----- What resolving and rendering mean -----

  /** The name stands for a builtin scalar, or else for a definition. */
  predicate StandsFor(names: map<string, Definition>, name: string, kind: Kind) {
    match kind
    case Scalar(scalar) => Builtin(name) == Some(scalar)
    case Defined(definition) => Builtin(name).None? && name in names && names[name] == definition
  }

  /** A type resolves to the one flat type that nests to it and whose name stands for its kind. */
  lemma ResolvesExactly(ty: TypeNode, names: map<string, Definition>, g: GraphqlType)
    ensures Resolve(ty, names) == Some(g) <==>
            exists name :: Nested(Flat(name, g.innerIsNullable, g.wrappers)) == ty && StandsFor(names, name, g.kind)
  {
    var flat := TypeFromNested(ty);
    FlatteningIsLossless(ty);
    if Resolve(ty, names) == Some(g) {
      assert flat == Flat(flat.name, g.innerIsNullable, g.wrappers);
    }
    forall name | Nested(Flat(name, g.innerIsNullable, g.wrappers)) == ty && StandsFor(names, name, g.kind)
      ensures Resolve(ty, names) == Some(g)
    {
      FlatteningIsOnto(Flat(name, g.innerIsNullable, g.wrappers));
    }
  }

  const NUMBERS: set<string> := {"Int", "Float", "BigInt", "Timestamp"}

  const STRINGS: set<string> :=
    {"String", "ID", "Url", "Email", "Date", "IPAddress", "PhoneNumber", "Bytes", "Decimal", "DateTime"}

  /** The text of a type as it is written: scalars by their TypeScript names, other types by way of the schema,
      lists as arrays, and nullable types as unions with null. */
  lemma DirectIsTypeScript(ty: TypeNode)
    ensures Direct(ty) ==
            (match ty
             case Named("Json", _) => "any"
             case Named("Boolean", _) => "boolean"
             case Named(name, _) =>
               if name in NUMBERS then "number" else if name in STRINGS then "string" else "Schema['" + name + "']"
             case ListOf(inner, _) => "Array<" + Direct(inner) + ">")
            + if ty.nullable then " | null" else ""
  {
    match ty
    case Named(name, _) =>
      var text := if Builtin(name).Some? then ScalarName(Builtin(name).value) else DefinitionName(name);
      assert text + "" == text;
    case ListOf(inner, _) =>
      var text := ARRAY + Direct(inner) + ">";
      assert text + "" == text;
  }
}
