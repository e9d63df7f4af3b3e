/** `#[derive(GraphQLScalar)]` after the option record is read: choosing
    between custom resolvers and delegation to the single field, what each
    generated method does, the chained multi-type token parser, and the
    schema metadata (juniper_codegen/src/graphql_scalar/derive.rs).

    Emitted code is a small `Code` tree. An `Env` of uninterpreted functions
    gives it a meaning, so that what a generated method does can be compared
    with what the attributes ask for. */
module ScalarDerive {
  import opened Wrappers
  import opened Syntax
  import opened ScalarAttr

  /** `GraphQLScalarMethods`: every behaviour comes from a custom resolver,
      or each one that has no override delegates to the struct's field. */
  datatype Methods =
    | Custom(output: Path, input: Path, inputErr: Ty, parse: ParseToken)
    | Delegated(outputOverride: Option<Path>, inputOverride: Option<(Path, Ty)>,
                parseOverride: Option<ParseToken>, field: Field)

  /** The four resolver slots are all set. */
  predicate AllFour(a: Attr) {
    ToOutputOf(a).Some? && FromInputOf(a).Some? && FromInputErrOf(a).Some? && ParseTokenOf(a).Some?
  }

  /** `from_input_with` and `from_input_err` are given together or not at all. */
  predicate Paired(a: Attr) {
    FromInputOf(a).Some? == FromInputErrOf(a).Some?
  }

  /** The single field of a struct declaration, if it is one with one field. */
  function StructField(data: Data): (r: Option<Field>)
    ensures r.Some? <==> data.StructData? && FieldCount(data.fields) == 1
  {
    if data.StructData? then SingleField(data.fields) else None
  }

  /** The strategy selection of `expand`: with all four resolvers and no
      `with`, or with a `with` module, every behaviour is custom, a missing
      one taken from the module; otherwise the pairing of `from_input_with`
      with `from_input_err` is checked, then the declaration must be a
      struct with exactly one field, which handles every behaviour that has
      no override. */
  function SelectMethods(a: Attr, data: Data): (r: Result<Methods, Error>)
    ensures r.Ok? && r.value.Custom? <==> WithOf(a).Some? || AllFour(a)
    ensures WithOf(a).None? && AllFour(a) ==>
      r == Ok(Custom(ToOutputOf(a).value, FromInputOf(a).value, FromInputErrOf(a).value, ParseTokenOf(a).value))
    ensures WithOf(a).Some? ==> r.Ok? && r.value.Custom?
    ensures WithOf(a).Some? && ToOutputOf(a).Some? ==> r.value.output == ToOutputOf(a).value
    ensures WithOf(a).Some? && FromInputOf(a).Some? ==> r.value.input == FromInputOf(a).value
    ensures WithOf(a).Some? && FromInputErrOf(a).Some? ==> r.value.inputErr == FromInputErrOf(a).value
    ensures WithOf(a).Some? && ParseTokenOf(a).Some? ==> r.value.parse == ParseTokenOf(a).value
    ensures WithOf(a).Some? && ToOutputOf(a).None? ==> r.value.output == Member(WithOf(a).value, "to_output")
    ensures WithOf(a).Some? && FromInputOf(a).None? ==> r.value.input == Member(WithOf(a).value, "from_input")
    ensures WithOf(a).Some? && FromInputErrOf(a).None? ==>
      r.value.inputErr == PathTy(None, Member(WithOf(a).value, "Error"))
    ensures WithOf(a).Some? && ParseTokenOf(a).None? ==>
      r.value.parse == ParseWith(Member(WithOf(a).value, "parse_token"))
    ensures r == Err(UnpairedFromInput) <==> WithOf(a).None? && !AllFour(a) && !Paired(a)
    ensures r == Err(NotStruct) <==> WithOf(a).None? && !AllFour(a) && Paired(a) && !data.StructData?
    ensures r == Err(WrongFieldCount) <==>
      WithOf(a).None? && !AllFour(a) && Paired(a) && data.StructData? && FieldCount(data.fields) != 1
    ensures r.Err? ==> r.error in {UnpairedFromInput, NotStruct, WrongFieldCount}
    ensures r.Ok? && r.value.Delegated? ==>
      && r.value.outputOverride == ToOutputOf(a)
      && r.value.parseOverride == ParseTokenOf(a)
      && (r.value.inputOverride.Some? <==> FromInputOf(a).Some?)
      && (r.value.inputOverride.Some? ==> r.value.inputOverride.value == (FromInputOf(a).value, FromInputErrOf(a).value))
      && StructField(data) == Some(r.value.field)
  {
    if WithOf(a).None? && AllFour(a) then
      Ok(Custom(ToOutputOf(a).value, FromInputOf(a).value, FromInputErrOf(a).value, ParseTokenOf(a).value))
    else if WithOf(a).Some? then
      var m := WithOf(a).value;
      Ok(Custom(ToOutputOf(a).GetOr(Member(m, "to_output")),
                FromInputOf(a).GetOr(Member(m, "from_input")),
                FromInputErrOf(a).GetOr(PathTy(None, Member(m, "Error"))),
                ParseTokenOf(a).GetOr(ParseWith(Member(m, "parse_token")))))
    else if !Paired(a) then Err(UnpairedFromInput)
    else
      var input := if FromInputOf(a).Some? then Some((FromInputOf(a).value, FromInputErrOf(a).value)) else None;
      if !data.StructData? then Err(NotStruct)
      else if SingleField(data.fields).None? then Err(WrongFieldCount)
      else Ok(Delegated(ToOutputOf(a), input, ParseTokenOf(a), SingleField(data.fields).value))
  }

  /** The five generated behaviours: `GraphQLValue::resolve`,
      `GraphQLScalar::to_output`, `ToInputValue::to_input_value`,
      `FromInputValue::from_input_value` (also `GraphQLScalar::from_input`)
      and `ParseScalarValue::from_str` (also `GraphQLScalar::parse_token`). */
  datatype Behaviour = Resolve | ToOutput | ToInputValue | FromInputValue | ParseScalar

  const AllBehaviours: set<Behaviour> := {Resolve, ToOutput, ToInputValue, FromInputValue, ParseScalar}

  /** How the struct is rebuilt from a parsed field value:
      `|v| Self { ident: v }` for a named field, `Self` for a positional one. */
  datatype Ctor = NamedCtor(ident: Ident) | TupleCtor

  /** How the generated code reads the field: `self.ident` or `self.0`. */
  datatype FieldRef = ByName(ident: Ident) | ByIndex(index: nat)

  /** The tokens a `Field` prints as, following `self.`. */
  function Accessor(f: Field): FieldRef {
    match f
    case Named(id, _) => ByName(id)
    case Unnamed(_) => ByIndex(0)
  }

  /** `Field::closure_constructor`. */
  function ClosureConstructor(f: Field): Ctor {
    match f
    case Named(id, _) => NamedCtor(id)
    case Unnamed(_) => TupleCtor
  }

  /** A struct value with one field, enough to follow a value through the
      constructor and back through the accessor. */
  datatype StructValue<V> = NamedStruct(fields: map<Ident, V>) | TupleStruct(elems: seq<V>)

  function Construct<V>(c: Ctor, v: V): StructValue<V> {
    match c
    case NamedCtor(id) => NamedStruct(map[id := v])
    case TupleCtor => TupleStruct([v])
  }

  function Read<V>(r: FieldRef, s: StructValue<V>): Option<V> {
    match (r, s)
    case (ByName(id), NamedStruct(m)) => if id in m then Some(m[id]) else None
    case (ByIndex(k), TupleStruct(es)) => if k < |es| then Some(es[k]) else None
    case _ => None
  }

  /** The field `from_input` fills when it rebuilds the struct is the field
      the other behaviours read. */
  lemma ConstructorMatchesAccessor<V>(f: Field, v: V)
    ensures Read(Accessor(f), Construct(ClosureConstructor(f), v)) == Some(v)
  {
  }

  /** The body of one generated method. */
  datatype Code =
    | CallOverride(f: Path)                 // `f(self)`, `f(input)` or `f(token)`
    | OkOf(inner: Code)                     // `Ok(inner)`
    | ToInputOf(inner: Code)                // `let v = inner; ToInputValue::to_input_value(&v)`
    | FieldCall(b: Behaviour, at: FieldRef) // the same trait method on `&self.at`
    | TypeFromInput(t: Ty)                  // `<t as FromInputValue>::from_input_value(input)`
    | MapCtor(inner: Code, ctor: Ctor)      // `inner.map(ctor)`
    | TypeParse(t: Ty)                      // `<t as ParseScalarValue>::from_str(token)`
    | OrElse(prev: Code, next: Code)        // `prev.or_else(|_| next)`
    | NoCode                                // the empty token stream

  /** The `Error` associated type of `FromInputValue` and `GraphQLScalar`. */
  datatype TypeCode = Explicit(t: Ty) | FieldErrorOf(fieldTy: Ty)

  /** `ParseToken::expand_from_str`: a custom parser is called on the token;
      a type list is folded left into a chain that starts with the first
      type and `or_else`s each later one; an empty list emits nothing. */
  function ExpandFromStr(pt: ParseToken): Code {
    match pt
    case ParseWith(f) => CallOverride(f)
    case ParseAs(tys) => Chain(None, tys).GetOr(NoCode)
  }

  /** The fold of `expand_from_str` over the remaining types. */
  function Chain(acc: Option<Code>, tys: seq<Ty>): (r: Option<Code>)
    ensures r.None? <==> acc.None? && tys == []
    decreases |tys|
  {
    if tys == [] then acc
    else
      var step := match acc
        case None => TypeParse(tys[0])
        case Some(prev) => OrElse(prev, TypeParse(tys[0]));
      Chain(Some(step), tys[1..])
  }

  /** The types a chain tries, left to right. */
  function TriedTypes(c: Code): seq<Ty> {
    match c
    case TypeParse(t) => [t]
    case OrElse(p, n) => TriedTypes(p) + TriedTypes(n)
    case _ => []
  }

  /** The chain tries exactly the listed types, in list order. */
  lemma {:induction false} ChainTriesInOrder(acc: Option<Code>, tys: seq<Ty>)
    requires acc.Some? || tys != []
    ensures TriedTypes(Chain(acc, tys).value) == (if acc.Some? then TriedTypes(acc.value) else []) + tys
    decreases |tys|
  {
    if tys != [] {
      var step := match acc
        case None => TypeParse(tys[0])
        case Some(prev) => OrElse(prev, TypeParse(tys[0]));
      ChainTriesInOrder(Some(step), tys[1..]);
      assert tys == [tys[0]] + tys[1..];
    }
  }

  lemma ExpandFromStrTriesInOrder(tys: seq<Ty>)
    ensures TriedTypes(ExpandFromStr(ParseAs(tys))) == tys
  {
    if tys != [] {
      ChainTriesInOrder(None, tys);
    }
  }

  /** `GraphQLScalarMethods::expand_*`: the body of each generated method. A
      custom resolver or an override is called (`resolve` wraps its result
      in `Ok`, `to_input_value` converts it); otherwise the field's own
      implementation is called, and `from_input`'s result is mapped through
      the struct constructor. */
  function Emit(m: Methods, b: Behaviour): Code {
    match b
    case Resolve =>
      if OutputFn(m).Some? then OkOf(CallOverride(OutputFn(m).value))
      else FieldCall(Resolve, Accessor(m.field))
    case ToOutput =>
      if OutputFn(m).Some? then CallOverride(OutputFn(m).value)
      else FieldCall(ToOutput, Accessor(m.field))
    case ToInputValue =>
      if OutputFn(m).Some? then ToInputOf(CallOverride(OutputFn(m).value))
      else FieldCall(ToInputValue, Accessor(m.field))
    case FromInputValue =>
      if InputFn(m).Some? then CallOverride(InputFn(m).value)
      else MapCtor(TypeFromInput(FieldTy(m.field)), ClosureConstructor(m.field))
    case ParseScalar =>
      if ParseFn(m).Some? then ExpandFromStr(ParseFn(m).value)
      else TypeParse(FieldTy(m.field))
  }

  function OutputFn(m: Methods): (r: Option<Path>)
    ensures r.None? ==> m.Delegated?
  {
    if m.Custom? then Some(m.output) else m.outputOverride
  }

  function InputFn(m: Methods): (r: Option<Path>)
    ensures r.None? ==> m.Delegated?
  {
    if m.Custom? then Some(m.input) else if m.inputOverride.Some? then Some(m.inputOverride.value.0) else None
  }

  function ParseFn(m: Methods): (r: Option<ParseToken>)
    ensures r.None? ==> m.Delegated?
  {
    if m.Custom? then Some(m.parse) else m.parseOverride
  }

  /** `expand_from_input_err`. */
  function ErrorType(m: Methods): TypeCode {
    match m
    case Custom(_, _, e, _) => Explicit(e)
    case Delegated(_, input, _, f) =>
      if input.Some? then Explicit(input.value.1) else FieldErrorOf(FieldTy(f))
  }

  /** The meaning of emitted code: the user functions, the field's trait
      implementations and the runtime helpers the code calls, left
      uninterpreted. `succeeded` tells an `Ok` parse result from an `Err`. */
  datatype Env<!V> = Env(
    call: (Path, V) -> V,
    field: (Behaviour, FieldRef, V) -> V,
    fromInput: (Ty, V) -> V,
    parse: (Ty, V) -> V,
    ok: V -> V,
    toInput: V -> V,
    mapCtor: (Ctor, V) -> V,
    succeeded: V -> bool)

  /** What a generated method body returns for argument `x` (`self`, the
      input value or the token); `None` for a body that emits nothing. */
  function Eval<V>(c: Code, env: Env<V>, x: V): Option<V> {
    match c
    case CallOverride(f) => Some(env.call(f, x))
    case OkOf(inner) => MapOpt(Eval(inner, env, x), env.ok)
    case ToInputOf(inner) => MapOpt(Eval(inner, env, x), env.toInput)
    case FieldCall(b, at) => Some(env.field(b, at, x))
    case TypeFromInput(t) => Some(env.fromInput(t, x))
    case MapCtor(inner, ctor) => MapOpt(Eval(inner, env, x), v => env.mapCtor(ctor, v))
    case TypeParse(t) => Some(env.parse(t, x))
    case OrElse(p, n) =>
      var r := Eval(p, env, x);
      if r.Some? && env.succeeded(r.value) then r else Eval(n, env, x)
    case NoCode => None
  }

  function MapOpt<V>(o: Option<V>, f: V -> V): Option<V> {
    match o
    case Some(v) => Some(f(v))
    case None => None
  }

  /** Reference meaning of a type list: try the types in list order and
      return the first success, or the last failure. */
  function TryInOrder<V>(tys: seq<Ty>, env: Env<V>, x: V): (r: Option<V>)
    ensures r.None? <==> tys == []
    decreases |tys|
  {
    if tys == [] then None
    else
      var v := env.parse(tys[0], x);
      if env.succeeded(v) || |tys| == 1 then Some(v) else TryInOrder(tys[1..], env, x)
  }

  /** A chain continued from an earlier result `prev` tries the remaining
      types only when `prev` failed. */
  lemma {:induction false} ChainMeaning<V>(c: Code, tys: seq<Ty>, env: Env<V>, x: V)
    requires Eval(c, env, x).Some?
    ensures Eval(Chain(Some(c), tys).value, env, x) ==
      if tys == [] || env.succeeded(Eval(c, env, x).value) then Eval(c, env, x) else TryInOrder(tys, env, x)
    decreases |tys|
  {
    if tys != [] {
      var step := OrElse(c, TypeParse(tys[0]));
      ChainMeaning(step, tys[1..], env, x);
    }
  }

  /** `parse_token(T1, ..., Tn)` behaves as trying each type in order until
      the first success. */
  lemma ParseChainIsFirstSuccess<V>(tys: seq<Ty>, env: Env<V>, x: V)
    ensures Eval(ExpandFromStr(ParseAs(tys)), env, x) == TryInOrder(tys, env, x)
  {
    if tys != [] {
      ChainMeaning(TypeParse(tys[0]), tys[1..], env, x);
    }
  }

  /** The resolver a behaviour should use according to the attributes: the
      explicit one, else the `with` module's, else none. */
  function Chosen(explicit: Option<Path>, a: Attr, member: Ident): Option<Path> {
    if explicit.Some? then explicit
    else if WithOf(a).Some? then Some(Member(WithOf(a).value, member))
    else None
  }

  function ChosenParser(a: Attr): Option<ParseToken> {
    if ParseTokenOf(a).Some? then ParseTokenOf(a)
    else if WithOf(a).Some? then Some(ParseWith(Member(WithOf(a).value, "parse_token")))
    else None
  }

  function TokenMeaning<V>(pt: ParseToken, env: Env<V>, x: V): Option<V> {
    match pt
    case ParseWith(f) => Some(env.call(f, x))
    case ParseAs(tys) => TryInOrder(tys, env, x)
  }

  /** What each behaviour should do, read straight off the attributes and
      the declaration: an explicit resolver wins over the `with` module,
      which wins over the single field; a list of token types is tried in
      order. */
  function Intended<V>(a: Attr, fl: Option<Field>, b: Behaviour, env: Env<V>, x: V): Option<V> {
    match b
    case Resolve =>
      var p := Chosen(ToOutputOf(a), a, "to_output");
      if p.Some? then Some(env.ok(env.call(p.value, x)))
      else if fl.Some? then Some(env.field(Resolve, Accessor(fl.value), x)) else None
    case ToOutput =>
      var p := Chosen(ToOutputOf(a), a, "to_output");
      if p.Some? then Some(env.call(p.value, x))
      else if fl.Some? then Some(env.field(ToOutput, Accessor(fl.value), x)) else None
    case ToInputValue =>
      var p := Chosen(ToOutputOf(a), a, "to_output");
      if p.Some? then Some(env.toInput(env.call(p.value, x)))
      else if fl.Some? then Some(env.field(ToInputValue, Accessor(fl.value), x)) else None
    case FromInputValue =>
      var p := Chosen(FromInputOf(a), a, "from_input");
      if p.Some? then Some(env.call(p.value, x))
      else if fl.Some? then Some(env.mapCtor(ClosureConstructor(fl.value), env.fromInput(FieldTy(fl.value), x)))
      else None
    case ParseScalar =>
      var pt := ChosenParser(a);
      if pt.Some? then TokenMeaning(pt.value, env, x)
      else if fl.Some? then Some(env.parse(FieldTy(fl.value), x)) else None
  }

  /** Every generated method does what the attributes ask for. */
  lemma EmitMeansIntended<V>(a: Attr, data: Data, b: Behaviour, env: Env<V>, x: V)
    requires SelectMethods(a, data).Ok?
    ensures Eval(Emit(SelectMethods(a, data).value, b), env, x) == Intended(a, StructField(data), b, env, x)
  {
    var m := SelectMethods(a, data).value;
    if b == ParseScalar && ParseFn(m).Some? && ParseFn(m).value.ParseAs? {
      ParseChainIsFirstSuccess(ParseFn(m).value.tys, env, x);
    }
  }

  /** A single-field struct with no resolver attributes is a transparent
      wrapper: each behaviour is the field's own. */
  lemma NewtypeDelegatesAll<V>(a: Attr, f: Field, env: Env<V>, x: V)
    requires ToOutputOf(a).None? && FromInputOf(a).None? && FromInputErrOf(a).None?
    requires ParseTokenOf(a).None? && WithOf(a).None?
    ensures SelectMethods(a, StructData(UnnamedFields([FieldTy(f)]))).Ok?
    ensures var m := SelectMethods(a, StructData(UnnamedFields([FieldTy(f)]))).value;
      && Eval(Emit(m, Resolve), env, x) == Some(env.field(Resolve, ByIndex(0), x))
      && Eval(Emit(m, ToOutput), env, x) == Some(env.field(ToOutput, ByIndex(0), x))
      && Eval(Emit(m, ToInputValue), env, x) == Some(env.field(ToInputValue, ByIndex(0), x))
      && Eval(Emit(m, FromInputValue), env, x) == Some(env.mapCtor(TupleCtor, env.fromInput(FieldTy(f), x)))
      && Eval(Emit(m, ParseScalar), env, x) == Some(env.parse(FieldTy(f), x))
      && ErrorType(m) == FieldErrorOf(FieldTy(f))
  {
  }

  /** The error type follows the same precedence as `from_input`: the
      explicit `from_input_err`, else `M::Error` of the `with` module, else
      the field type's own `FromInputValue::Error`. */
  lemma ErrorTypeFollowsAttrs(a: Attr, data: Data)
    requires SelectMethods(a, data).Ok?
    ensures var t := ErrorType(SelectMethods(a, data).value);
      && (FromInputErrOf(a).Some? ==> t == Explicit(FromInputErrOf(a).value))
      && (FromInputErrOf(a).None? && WithOf(a).Some? ==> t == Explicit(PathTy(None, Member(WithOf(a).value, "Error"))))
      && (FromInputErrOf(a).None? && WithOf(a).None? ==> t == FieldErrorOf(FieldTy(StructField(data).value)))
  {
  }

  /** One builder call appended to `registry.build_scalar_type`. */
  datatype BuilderCall = DescriptionCall(text: string) | UrlCall(url: string)

  /** The calls `impl_type_tokens` appends: the description, then the URL,
      each only when present. */
  function MetaCalls(description: Option<string>, url: Option<string>): (r: seq<BuilderCall>)
    ensures forall s :: DescriptionCall(s) in r <==> description == Some(s)
    ensures forall u :: UrlCall(u) in r <==> url == Some(u)
    ensures |r| == (if description.Some? then 1 else 0) + (if url.Some? then 1 else 0)
    ensures description.Some? && url.Some? ==> r[0].DescriptionCall? && r[1].UrlCall?
  {
    (if description.Some? then [DescriptionCall(description.value)] else [])
      + (if url.Some? then [UrlCall(url.value)] else [])
  }

  /** The constants of `impl_reflection_traits_tokens`. */
  datatype Reflection = Reflection(baseName: string, subTypes: seq<string>, wrappedValue: int)

  /** What `#[derive(GraphQLScalar)]` generates, reduced to the decisions in
      it: the schema name, the metadata calls, the reflection constants, the
      body of each behaviour and the error type. */
  datatype Generated = Generated(
    name: string,
    metaCalls: seq<BuilderCall>,
    reflection: Reflection,
    bodies: map<Behaviour, Code>,
    errorType: TypeCode)

  /** `Definition::to_tokens`. */
  function Generate(ident: Ident, a: Attr, m: Methods): (g: Generated)
    ensures g.name == NameOf(a).GetOr(ident)
    ensures g.reflection.baseName == g.name && g.reflection.subTypes == [g.name]
    ensures g.reflection.wrappedValue == 1
    ensures g.bodies.Keys == AllBehaviours
    ensures forall b :: b in g.bodies ==> g.bodies[b] == Emit(m, b)
  {
    var name := NameOf(a).GetOr(ident);
    Generated(name, MetaCalls(DescriptionOf(a), UrlOf(a)), Reflection(name, [name], 1),
      map b | b in AllBehaviours :: Emit(m, b), ErrorType(m))
  }

  /** `expand`: read and merge the attributes, select the strategy, build
      the definition and generate its code. */
  function Expand(input: DeriveInput): (r: Result<Generated, Error>)
    ensures r.Ok? <==>
      && FromAttrs(input.attrs, input.doc).Ok?
      && SelectMethods(FromAttrs(input.attrs, input.doc).value, input.data).Ok?
    ensures r.Ok? ==> r.value.bodies.Keys == AllBehaviours
  {
    var a :- FromAttrs(input.attrs, input.doc);
    var m :- SelectMethods(a, input.data);
    Ok(Generate(input.ident, a, m))
  }

  /** The schema name is the one an attribute gives, else the type's own
      identifier; the description is the one an attribute gives, else the
      doc comment; a URL is listed exactly when an attribute gives one; the
      input error type is the one the selected strategy names. */
  lemma ExpandMetadata(input: DeriveInput, i: int)
    requires FromAttrs(input.attrs, input.doc).Ok?
    requires SelectMethods(FromAttrs(input.attrs, input.doc).value, input.data).Ok?
    ensures var g := Expand(input).value; var rs := ParseAll(input.attrs);
      && (Sets(rs, i, NameSlot) ==> g.name == rs[i].value[NameSlot].s)
      && ((forall k :: !Sets(rs, k, NameSlot)) ==> g.name == input.ident)
      && (Sets(rs, i, DescriptionSlot) ==> DescriptionCall(rs[i].value[DescriptionSlot].s) in g.metaCalls)
      && ((forall k :: !Sets(rs, k, DescriptionSlot)) ==>
            forall s :: DescriptionCall(s) in g.metaCalls <==> input.doc == Some(s))
      && (Sets(rs, i, UrlSlot) ==> UrlCall(rs[i].value[UrlSlot].s) in g.metaCalls)
      && ((forall k :: !Sets(rs, k, UrlSlot)) ==> forall u :: UrlCall(u) !in g.metaCalls)
      && g.errorType == ErrorType(SelectMethods(FromAttrs(input.attrs, input.doc).value, input.data).value)
  {
    var a := FromAttrs(input.attrs, input.doc).value;
    FromAttrsValues(input.attrs, input.doc, i, NameSlot);
    FromAttrsValues(input.attrs, input.doc, i, DescriptionSlot);
    FromAttrsValues(input.attrs, input.doc, i, UrlSlot);
  }
}
