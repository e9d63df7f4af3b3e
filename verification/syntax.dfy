/** The pieces of Rust syntax the code generators look at, reduced to what
    their decisions depend on: paths, a type tree, generic parameters, the
    fields of a struct or enum variant, and the arguments written inside one
    `#[graphql(...)]` attribute. Spans are dropped throughout. */
module Syntax {
  import opened Wrappers

  type Ident = string

  /** A generic argument between angle brackets. */
  datatype GenericArg = TypeArg(ty: Ty) | LifetimeArg(lifetime: Ident)

  /** What follows one path segment: nothing, or `<...>`. */
  datatype PathArgs = NoArgs | Angled(args: seq<GenericArg>)

  datatype Segment = Segment(ident: Ident, args: PathArgs)

  /** A (possibly `::`-rooted) path such as `Vec<T>` or `crate::m::f`. */
  datatype Path = Path(leadingColon: bool, segments: seq<Segment>)

  /** A type expression. `PathTy` with a `qself` is `<Q as Trait>::Name`;
      `TraitObjectTy` lists the trait paths of a `dyn`/`impl` bound list. */
  datatype Ty =
    | PathTy(qself: Option<Ty>, path: Path)
    | RefTy(lifetime: Option<Ident>, elem: Ty)
    | PtrTy(elem: Ty)
    | SliceTy(elem: Ty)
    | ArrayTy(elem: Ty)
    | TupleTy(elems: seq<Ty>)
    | ParenTy(elem: Ty)
    | FnTy(inputs: seq<Ty>, output: Option<Ty>)
    | TraitObjectTy(bounds: seq<Path>)
    | NeverTy
    | InferTy

  /** One parameter of a declaration's generics. */
  datatype GenericParam =
    | TypeParam(ident: Ident)
    | LifetimeParam(ident: Ident)
    | ConstParam(ident: Ident, ty: Ty)

  /** The path made of the single identifier `id`. */
  function IdentPath(id: Ident): Path {
    Path(false, [Segment(id, NoArgs)])
  }

  /** `base::member`, as `parse_quote! { #base::member }` builds it. */
  function Member(base: Path, member: Ident): (r: Path)
    ensures |r.segments| == |base.segments| + 1
    ensures r.segments[..|base.segments|] == base.segments
    ensures r.segments[|base.segments|] == Segment(member, NoArgs)
  {
    Path(base.leadingColon, base.segments + [Segment(member, NoArgs)])
  }

  /** `syn::Path::get_ident`: the identifier of a path that is exactly one
      argument-free segment without a leading `::`. */
  function GetIdent(p: Path): (r: Option<Ident>)
    ensures r.Some? <==> exists id :: p == IdentPath(id)
    ensures r.Some? ==> p == IdentPath(r.value)
  {
    if !p.leadingColon && |p.segments| == 1 && p.segments[0].args == NoArgs then
      assert p == IdentPath(p.segments[0].ident);
      Some(p.segments[0].ident)
    else
      None
  }

  /** A literal or path written after `=` in an attribute argument. */
  datatype Lit = StrLit(s: string) | PathLit(p: Path) | TypeLit(t: Ty)

  /** The value part of one attribute argument: nothing (`key`), an
      assignment (`key = lit`) or a parenthesised type list (`key(T1, T2)`). */
  datatype ArgValue = Bare | Assign(lit: Lit) | TypeList(tys: seq<Ty>)

  /** One comma-separated argument inside `#[graphql(...)]`. */
  datatype Arg = Arg(key: Ident, value: ArgValue)

  /** The type a literal denotes when a type is expected: a type, or a path
      read as a type. A string literal is not a type. */
  function AsType(lit: Lit): (r: Option<Ty>)
    ensures r.Some? <==> !lit.StrLit?
  {
    match lit
    case TypeLit(t) => Some(t)
    case PathLit(p) => Some(PathTy(None, p))
    case StrLit(_) => None
  }

  datatype NamedField = NamedField(ident: Ident, ty: Ty)

  /** `syn::Fields`: no fields, positional fields, or named fields. */
  datatype Fields =
    | UnitFields
    | UnnamedFields(tys: seq<Ty>)
    | NamedFields(named: seq<NamedField>)

  /** The number of fields a declaration or variant has. */
  function FieldCount(fs: Fields): nat {
    match fs
    case UnitFields => 0
    case UnnamedFields(tys) => |tys|
    case NamedFields(named) => |named|
  }

  /** The sole field of a single-field struct or variant. */
  datatype Field = Named(ident: Ident, ty: Ty) | Unnamed(ty: Ty)

  /** `Field::ty`: the field's declared type. */
  function FieldTy(f: Field): Ty {
    match f
    case Named(_, t) => t
    case Unnamed(t) => t
  }

  /** The one field of `fs`, when `fs` has exactly one. */
  function SingleField(fs: Fields): (r: Option<Field>)
    ensures r.Some? <==> FieldCount(fs) == 1
    ensures r.Some? && fs.UnnamedFields? ==> r.value == Unnamed(fs.tys[0])
    ensures r.Some? && fs.NamedFields? ==> r.value == Named(fs.named[0].ident, fs.named[0].ty)
  {
    match fs
    case UnitFields => None
    case UnnamedFields(tys) => if |tys| == 1 then Some(Unnamed(tys[0])) else None
    case NamedFields(named) =>
      if |named| == 1 then Some(Named(named[0].ident, named[0].ty)) else None
  }

  /** One enum variant with the argument lists of its `#[graphql]` attributes. */
  datatype Variant = Variant(ident: Ident, fields: Fields, attrs: seq<seq<Arg>>)

  /** `syn::Data`. */
  datatype Data = StructData(fields: Fields) | EnumData(variants: seq<Variant>) | UnionData

  /** The parts of a `syn::DeriveInput` the generators read: `attrs` holds the
      argument lists of the declaration's `#[graphql]` attributes in order,
      `doc` its doc comment. */
  datatype DeriveInput = DeriveInput(
    ident: Ident,
    attrs: seq<seq<Arg>>,
    doc: Option<string>,
    generics: seq<GenericParam>,
    data: Data)
}
