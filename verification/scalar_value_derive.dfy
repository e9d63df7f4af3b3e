/** `#[derive(GraphQLScalarValue)]` (juniper_codegen/src/derive_scalar_value.rs):
    the per-variant `#[graphql(as_int, as_str = f, ...)]` attributes, the
    table from method to registered variants, the six projection methods,
    the `From` conversions, the `Display` impl and its bounds, and the
    warnings for methods no variant registers. An enum value is modelled as
    its variant's identifier and its payload. */
module ScalarValueDerive {
  import opened Wrappers
  import opened Syntax
  import opened GenericCheck

  /** The six `ScalarValue` methods a variant can be registered for. */
  datatype Method = AsInt | AsFloat | AsStr | AsString | IntoString | AsBoolean

  /** The order the methods are generated and warned about in. */
  const AllMethods: seq<Method> := [AsInt, AsFloat, AsStr, AsString, IntoString, AsBoolean]

  /** Every error `#[derive(GraphQLScalarValue)]` reports. */
  datatype Error =
    | NotEnum
    | WrongFieldCount(variant: Ident)
    | UnknownArg(key: Ident)
    | MalformedValue(key: Ident)
    | DuplicateArg(entry: Entry)

  /** The method an attribute key names; `as_bool` is an alias of `as_boolean`. */
  function MethodOf(key: Ident): (r: Option<Method>)
    ensures r == Some(AsBoolean) <==> key == "as_bool" || key == "as_boolean"
    ensures r.None? <==> key !in {"as_int", "as_float", "as_str", "as_string", "into_string", "as_bool", "as_boolean"}
  {
    if key == "as_int" then Some(AsInt)
    else if key == "as_float" then Some(AsFloat)
    else if key == "as_str" then Some(AsStr)
    else if key == "as_string" then Some(AsString)
    else if key == "into_string" then Some(IntoString)
    else if key == "as_bool" || key == "as_boolean" then Some(AsBoolean)
    else None
  }

  /** One registration: a method and its optional resolver function. */
  datatype Entry = Entry(op: Method, resolver: Option<Path>)

  /** One argument: `method` or `method = path`. */
  function ParseEntry(arg: Arg): (r: Result<Entry, Error>)
    ensures r.Ok? <==> MethodOf(arg.key).Some? && (arg.value.Bare? || (arg.value.Assign? && arg.value.lit.PathLit?))
    ensures r.Ok? ==> r.value.op == MethodOf(arg.key).value
    ensures r.Ok? ==> (r.value.resolver.Some? <==> arg.value.Assign?)
    ensures r.Ok? && arg.value.Assign? ==> r.value.resolver == Some(arg.value.lit.p)
    ensures r == Err(UnknownArg(arg.key)) <==> MethodOf(arg.key).None?
  {
    match MethodOf(arg.key)
    case None => Err(UnknownArg(arg.key))
    case Some(m) =>
      match arg.value
      case Bare => Ok(Entry(m, None))
      case Assign(PathLit(p)) => Ok(Entry(m, Some(p)))
      case _ => Err(MalformedValue(arg.key))
  }

  /** `VariantAttr::parse`: the entries of one attribute, in order. A method
      listed twice in the same attribute is kept twice. */
  function ParseVariantAttr(args: seq<Arg>): (r: Result<seq<Entry>, Error>)
    ensures r.Ok? <==> forall i :: 0 <= i < |args| ==> ParseEntry(args[i]).Ok?
    ensures r.Ok? ==> |r.value| == |args| && forall i :: 0 <= i < |args| ==> r.value[i] == ParseEntry(args[i]).value
    ensures r.Err? ==> exists i :: 0 <= i < |args| && ParseEntry(args[i]) == Err(r.error)
  {
    if args == [] then Ok([])
    else
      match ParseEntry(args[0])
      case Err(e) => Err(e)
      case Ok(e) =>
        match ParseVariantAttr(args[1..])
        case Err(err) => Err(err)
        case Ok(rest) => Ok([e] + rest)
  }

  /** The first entry of `later` that `held` already holds. */
  function FirstDuplicate(held: seq<Entry>, later: seq<Entry>): (r: Option<Entry>)
    ensures r.Some? ==> r.value in held && r.value in later
    ensures r.None? <==> forall i :: 0 <= i < |later| ==> later[i] !in held
  {
    if later == [] then None
    else if later[0] in held then Some(later[0])
    else FirstDuplicate(held, later[1..])
  }

  /** `VariantAttr::try_merge`: an entry of the later attribute equal to one
      already collected (same method, same resolver) is a duplicate;
      otherwise the lists are concatenated. */
  function MergeEntries(held: seq<Entry>, later: seq<Entry>): (r: Result<seq<Entry>, Error>)
    ensures r.Ok? <==> forall e :: e in later ==> e !in held
    ensures r.Ok? ==> r.value == held + later
    ensures r.Err? ==> r.error.DuplicateArg? && r.error.entry in held && r.error.entry in later
  {
    match FirstDuplicate(held, later)
    case Some(d) => Err(DuplicateArg(d))
    case None => Ok(held + later)
  }

  /** The entries of one attribute; one that does not parse has none. */
  ghost function AttrEntries(args: seq<Arg>): seq<Entry> {
    if ParseVariantAttr(args).Ok? then ParseVariantAttr(args).value else []
  }

  /** Reference: the entries of all the attributes, attribute by attribute
      in order. */
  ghost function AllEntries(attrs: seq<seq<Arg>>): seq<Entry> {
    if attrs == [] then [] else AttrEntries(attrs[0]) + AllEntries(attrs[1..])
  }

  /** An entry is among all the entries exactly when one of the attributes
      parses and holds it. */
  lemma {:induction false} AllEntriesFrom(attrs: seq<seq<Arg>>, e: Entry)
    ensures e in AllEntries(attrs) <==> exists i :: 0 <= i < |attrs| && ParseVariantAttr(attrs[i]).Ok? && e in ParseVariantAttr(attrs[i]).value
  {
    if attrs != [] {
      AllEntriesFrom(attrs[1..], e);
      assert forall i :: 1 <= i < |attrs| ==> attrs[1..][i - 1] == attrs[i];
      if e in AllEntries(attrs[1..]) {
        var i :| 0 <= i < |attrs[1..]| && ParseVariantAttr(attrs[1..][i]).Ok? && e in ParseVariantAttr(attrs[1..][i]).value;
        assert attrs[i + 1] == attrs[1..][i];
      }
    }
  }

  /** No entry of `later` is in `held`. */
  ghost predicate NoneHeld(held: seq<Entry>, later: seq<Entry>) {
    forall j :: 0 <= j < |later| ==> later[j] !in held
  }

  /** No entry of an attribute is already held, either from the start or
      from an earlier attribute. */
  ghost predicate FreshEntries(acc: seq<Entry>, attrs: seq<seq<Arg>>) {
    && (forall i :: 0 <= i < |attrs| ==> NoneHeld(acc, AttrEntries(attrs[i])))
    && (forall k, i :: 0 <= k < i < |attrs| ==> NoneHeld(AttrEntries(attrs[k]), AttrEntries(attrs[i])))
  }

  lemma NoneHeldAppend(a: seq<Entry>, b: seq<Entry>, later: seq<Entry>)
    ensures NoneHeld(a + b, later) <==> NoneHeld(a, later) && NoneHeld(b, later)
  {
  }

  /** Freshness of a list of attributes, split at its first attribute. */
  lemma FreshEntriesCons(acc: seq<Entry>, attrs: seq<seq<Arg>>)
    requires attrs != [] && ParseVariantAttr(attrs[0]).Ok?
    ensures FreshEntries(acc, attrs) <==>
      NoneHeld(acc, ParseVariantAttr(attrs[0]).value) && FreshEntries(acc + ParseVariantAttr(attrs[0]).value, attrs[1..])
  {
    var cur := ParseVariantAttr(attrs[0]).value;
    var tail := attrs[1..];
    assert AttrEntries(attrs[0]) == cur;
    assert forall i :: 0 <= i < |tail| ==> tail[i] == attrs[i + 1];
    forall i | 0 <= i < |tail| {
      NoneHeldAppend(acc, cur, AttrEntries(tail[i]));
    }
    if NoneHeld(acc, cur) && FreshEntries(acc + cur, tail) {
      forall k, i | 0 <= k < i < |attrs| ensures NoneHeld(AttrEntries(attrs[k]), AttrEntries(attrs[i])) {
        if k > 0 { assert NoneHeld(AttrEntries(tail[k - 1]), AttrEntries(tail[i - 1])); }
        else { assert NoneHeld(acc + cur, AttrEntries(tail[i - 1])); }
      }
      forall i | 0 <= i < |attrs| ensures NoneHeld(acc, AttrEntries(attrs[i])) {
        if i > 0 { assert NoneHeld(acc + cur, AttrEntries(tail[i - 1])); }
      }
    }
    if FreshEntries(acc, attrs) {
      forall i | 0 <= i < |tail| ensures NoneHeld(acc + cur, AttrEntries(tail[i])) {
        assert NoneHeld(acc, AttrEntries(attrs[i + 1])) && NoneHeld(AttrEntries(attrs[0]), AttrEntries(attrs[i + 1]));
      }
      forall k, i | 0 <= k < i < |tail| ensures NoneHeld(AttrEntries(tail[k]), AttrEntries(tail[i])) {
        assert NoneHeld(AttrEntries(attrs[k + 1]), AttrEntries(attrs[i + 1]));
      }
    }
  }

  /** `VariantAttr::from_attrs`: parse each attribute and merge it into the
      entries collected so far, stopping at the first error. */
  function CollectEntries(acc: seq<Entry>, attrs: seq<seq<Arg>>): (r: Result<seq<Entry>, Error>)
    ensures r.Ok? ==> r.value == acc + AllEntries(attrs)
    ensures r.Ok? ==> |r.value| >= |acc| && r.value[..|acc|] == acc
    decreases |attrs|
  {
    if attrs == [] then Ok(acc)
    else
      match ParseVariantAttr(attrs[0])
      case Err(e) => Err(e)
      case Ok(cur) =>
        match MergeEntries(acc, cur)
        case Err(e) => Err(e)
        case Ok(merged) =>
          var r := CollectEntries(merged, attrs[1..]);
          assert forall i :: 1 <= i < |attrs| ==> attrs[1..][i - 1] == attrs[i];
          assert r.Ok? ==> r.value[..|acc|] == merged[..|acc|];
          r
  }

  /** Collecting succeeds exactly when every attribute parses and no entry
      repeats one held before it; duplicates inside a single attribute are
      not looked for. */
  lemma {:induction false} CollectEntriesOk(acc: seq<Entry>, attrs: seq<seq<Arg>>)
    ensures CollectEntries(acc, attrs).Ok? <==>
      (forall i :: 0 <= i < |attrs| ==> ParseVariantAttr(attrs[i]).Ok?) && FreshEntries(acc, attrs)
    decreases |attrs|
  {
    if attrs != [] && ParseVariantAttr(attrs[0]).Ok? {
      var cur := ParseVariantAttr(attrs[0]).value;
      CollectEntriesOk(acc + cur, attrs[1..]);
      FreshEntriesCons(acc, attrs);
      assert forall i :: 1 <= i < |attrs| ==> attrs[1..][i - 1] == attrs[i];
      assert NoneHeld(acc, cur) <==> forall e :: e in cur ==> e !in acc;
    }
  }

  /** `Field::try_from`: the one field of a variant. */
  function VariantField(v: Variant): (r: Result<Field, Error>)
    ensures r.Ok? <==> FieldCount(v.fields) == 1
    ensures r.Err? ==> r.error == WrongFieldCount(v.ident)
    ensures r.Ok? ==> Some(r.value) == SingleField(v.fields)
  {
    match SingleField(v.fields)
    case None => Err(WrongFieldCount(v.ident))
    case Some(f) => Ok(f)
  }

  /** A variant after its field and attributes are read. */
  datatype VariantInfo = VariantInfo(ident: Ident, field: Field, entries: seq<Entry>)

  /** The loop of `expand` over the variants: each variant's field is
      checked first, then its attributes, in declaration order. */
  function CollectVariants(vs: seq<Variant>): (r: Result<seq<VariantInfo>, Error>)
    ensures r.Ok? <==> forall i :: 0 <= i < |vs| ==> VariantField(vs[i]).Ok? && CollectEntries([], vs[i].attrs).Ok?
    ensures r.Ok? ==> |r.value| == |vs| && forall i :: 0 <= i < |vs| ==>
      r.value[i] == VariantInfo(vs[i].ident, VariantField(vs[i]).value, CollectEntries([], vs[i].attrs).value)
  {
    if vs == [] then Ok([])
    else
      match VariantField(vs[0])
      case Err(e) => Err(e)
      case Ok(f) =>
        match CollectEntries([], vs[0].attrs)
        case Err(e) => Err(e)
        case Ok(es) =>
          match CollectVariants(vs[1..])
          case Err(e) =>
            assert forall i :: 1 <= i < |vs| ==> vs[1..][i - 1] == vs[i];
            Err(e)
          case Ok(rest) =>
            assert forall i :: 1 <= i < |vs| ==> vs[1..][i - 1] == vs[i];
            Ok([VariantInfo(vs[0].ident, f, es)] + rest)
  }

  // ---------------------------------------------------------------------
  // The method table.

  /** One variant registered for a method, with its resolver if any. */
  datatype Registration = Registration(variant: Ident, field: Field, resolver: Option<Path>)

  type Table = map<Method, seq<Registration>>

  /** The registrations of `m` in `t`; a method never registered has none. */
  function Lookup(t: Table, m: Method): seq<Registration> {
    if m in t then t[m] else []
  }

  /** `methods.entry(method).or_default().push(...)`. */
  function Push(t: Table, m: Method, r: Registration): (t': Table)
    ensures Lookup(t', m) == Lookup(t, m) + [r]
    ensures forall n :: n != m ==> Lookup(t', n) == Lookup(t, n) && (n in t' <==> n in t)
    ensures m in t'
  {
    t[m := Lookup(t, m) + [r]]
  }

  /** The inner loop of `expand`: push one registration per entry. */
  function AddEntries(t: Table, ident: Ident, field: Field, es: seq<Entry>): Table
    decreases |es|
  {
    if es == [] then t
    else AddEntries(Push(t, es[0].op, Registration(ident, field, es[0].resolver)), ident, field, es[1..])
  }

  /** The outer loop of `expand`: the table of all variants, in order. */
  function BuildTable(t: Table, infos: seq<VariantInfo>): Table
    decreases |infos|
  {
    if infos == [] then t
    else BuildTable(AddEntries(t, infos[0].ident, infos[0].field, infos[0].entries), infos[1..])
  }

  /** Reference: the registrations of `m` made by one variant's entries. */
  function EntryRegs(ident: Ident, field: Field, es: seq<Entry>, m: Method): (r: seq<Registration>)
    ensures forall i :: 0 <= i < |r| ==> r[i].variant == ident
  {
    if es == [] then []
    else
      var own := if es[0].op == m then [Registration(ident, field, es[0].resolver)] else [];
      own + EntryRegs(ident, field, es[1..], m)
  }

  /** Reference: the registrations of `m`, variant by variant in order. */
  function Registered(infos: seq<VariantInfo>, m: Method): seq<Registration> {
    if infos == [] then []
    else EntryRegs(infos[0].ident, infos[0].field, infos[0].entries, m) + Registered(infos[1..], m)
  }

  lemma {:induction false} AddEntriesAppends(t: Table, ident: Ident, field: Field, es: seq<Entry>, m: Method)
    ensures Lookup(AddEntries(t, ident, field, es), m) == Lookup(t, m) + EntryRegs(ident, field, es, m)
    ensures m in AddEntries(t, ident, field, es) <==> m in t || EntryRegs(ident, field, es, m) != []
    decreases |es|
  {
    if es != [] {
      var reg := Registration(ident, field, es[0].resolver);
      var t' := Push(t, es[0].op, reg);
      AddEntriesAppends(t', ident, field, es[1..], m);
      var rest := EntryRegs(ident, field, es[1..], m);
      if es[0].op == m {
        assert EntryRegs(ident, field, es, m) == [reg] + rest;
        assert Lookup(t', m) == Lookup(t, m) + [reg];
        assert Lookup(t, m) + [reg] + rest == Lookup(t, m) + ([reg] + rest);
      } else {
        assert EntryRegs(ident, field, es, m) == rest;
        assert Lookup(t', m) == Lookup(t, m) && (m in t' <==> m in t);
      }
    }
  }

  /** The table lists, for each method, exactly the registrations of the
      reference, in declaration order; a method is a key exactly when some
      variant registers it. */
  lemma {:induction false} BuildTableMatches(t: Table, infos: seq<VariantInfo>, m: Method)
    ensures Lookup(BuildTable(t, infos), m) == Lookup(t, m) + Registered(infos, m)
    ensures m in BuildTable(t, infos) <==> m in t || Registered(infos, m) != []
    decreases |infos|
  {
    if infos != [] {
      var t' := AddEntries(t, infos[0].ident, infos[0].field, infos[0].entries);
      AddEntriesAppends(t, infos[0].ident, infos[0].field, infos[0].entries, m);
      BuildTableMatches(t', infos[1..], m);
    }
  }

  // ---------------------------------------------------------------------
  // The projection methods.

  /** A value of the enum: its variant and its payload. */
  datatype EnumValue<V> = EnumValue(variant: Ident, payload: V)

  /** The meaning of a resolver call `f(v)` and of each method's default
      conversion (`i32::from(*v)`, `AsRef::as_ref(v)`, ...). */
  datatype ProjEnv<!V> = ProjEnv(call: (Path, V) -> V, default: (Method, V) -> V)

  /** The generated `match held`: the arms in table order, the first arm
      for the value's variant answers, `_ => None` otherwise. */
  function Project<V>(arms: seq<Registration>, m: Method, env: ProjEnv<V>, x: EnumValue<V>): Option<V> {
    if arms == [] then None
    else if arms[0].variant == x.variant then
      Some(if arms[0].resolver.Some? then env.call(arms[0].resolver.value, x.payload) else env.default(m, x.payload))
    else Project(arms[1..], m, env, x)
  }

  /** The first entry of a variant's own attributes for method `m`. */
  function FirstEntryFor(es: seq<Entry>, m: Method): (r: Option<Entry>)
    ensures r.Some? ==> r.value in es && r.value.op == m
    ensures r.None? <==> forall i :: 0 <= i < |es| ==> es[i].op != m
  {
    if es == [] then None
    else if es[0].op == m then Some(es[0])
    else FirstEntryFor(es[1..], m)
  }

  /** What projecting a value with method `m` should give, read off the
      value's own variant: its resolver applied to the payload, the
      default conversion when it has no resolver, `None` when the variant
      is not registered for `m`. */
  function Expected<V>(es: seq<Entry>, m: Method, env: ProjEnv<V>, payload: V): Option<V> {
    match FirstEntryFor(es, m)
    case None => None
    case Some(Entry(_, Some(f))) => Some(env.call(f, payload))
    case Some(Entry(_, None)) => Some(env.default(m, payload))
  }

  lemma {:induction false} ProjectConcat<V>(a: seq<Registration>, b: seq<Registration>, m: Method, env: ProjEnv<V>, x: EnumValue<V>)
    ensures Project(a + b, m, env, x) ==
      if Project(a, m, env, x).Some? then Project(a, m, env, x) else Project(b, m, env, x)
    decreases |a|
  {
    if a != [] {
      assert (a + b)[1..] == a[1..] + b;
      ProjectConcat(a[1..], b, m, env, x);
    } else {
      assert a + b == b;
    }
  }

  lemma {:induction false} ProjectOwnEntries<V>(ident: Ident, field: Field, es: seq<Entry>, m: Method, env: ProjEnv<V>, payload: V)
    ensures Project(EntryRegs(ident, field, es, m), m, env, EnumValue(ident, payload)) == Expected(es, m, env, payload)
    decreases |es|
  {
    if es != [] {
      var head := if es[0].op == m then [Registration(ident, field, es[0].resolver)] else [];
      ProjectConcat(head, EntryRegs(ident, field, es[1..], m), m, env, EnumValue(ident, payload));
      ProjectOwnEntries(ident, field, es[1..], m, env, payload);
    }
  }

  lemma {:induction false} ProjectOtherVariant<V>(regs: seq<Registration>, m: Method, env: ProjEnv<V>, x: EnumValue<V>)
    requires forall i :: 0 <= i < |regs| ==> regs[i].variant != x.variant
    ensures Project(regs, m, env, x).None?
    decreases |regs|
  {
    if regs != [] {
      ProjectOtherVariant(regs[1..], m, env, x);
    }
  }

  /** Variant names are distinct, as in any enum the compiler accepts. */
  ghost predicate DistinctIdents(infos: seq<VariantInfo>) {
    forall i, j :: 0 <= i < j < |infos| ==> infos[i].ident != infos[j].ident
  }

  /** Projecting a value of variant `k` with method `m` gives the variant's
      own resolver (or the default conversion) when it is registered for
      `m`, and `None` when it is not. */
  lemma {:induction false} ProjectionSemantics<V>(infos: seq<VariantInfo>, k: int, m: Method, env: ProjEnv<V>, payload: V)
    requires DistinctIdents(infos) && 0 <= k < |infos|
    ensures Project(Lookup(BuildTable(map[], infos), m), m, env, EnumValue(infos[k].ident, payload))
      == Expected(infos[k].entries, m, env, payload)
    decreases |infos|
  {
    BuildTableMatches(map[], infos, m);
    assert Lookup(BuildTable(map[], infos), m) == Registered(infos, m);
    RegisteredProjection(infos, k, m, env, payload);
  }

  lemma {:induction false} RegisteredProjection<V>(infos: seq<VariantInfo>, k: int, m: Method, env: ProjEnv<V>, payload: V)
    requires DistinctIdents(infos) && 0 <= k < |infos|
    ensures Project(Registered(infos, m), m, env, EnumValue(infos[k].ident, payload))
      == Expected(infos[k].entries, m, env, payload)
    decreases |infos|
  {
    var x := EnumValue(infos[k].ident, payload);
    var head := EntryRegs(infos[0].ident, infos[0].field, infos[0].entries, m);
    ProjectConcat(head, Registered(infos[1..], m), m, env, x);
    if k == 0 {
      ProjectOwnEntries(infos[0].ident, infos[0].field, infos[0].entries, m, env, payload);
      if Project(head, m, env, x).None? {
        NotRegisteredLater(infos[1..], infos[0].ident, m);
        ProjectOtherVariant(Registered(infos[1..], m), m, env, x);
      }
    } else {
      ProjectOtherVariant(head, m, env, x);
      assert DistinctIdents(infos[1..]) by {
        forall i, j | 0 <= i < j < |infos[1..]| ensures infos[1..][i].ident != infos[1..][j].ident {
          assert infos[1..][i] == infos[i + 1] && infos[1..][j] == infos[j + 1];
        }
      }
      assert infos[1..][k - 1] == infos[k];
      RegisteredProjection(infos[1..], k - 1, m, env, payload);
    }
  }

  lemma {:induction false} NotRegisteredLater(infos: seq<VariantInfo>, id: Ident, m: Method)
    requires forall i :: 0 <= i < |infos| ==> infos[i].ident != id
    ensures forall i :: 0 <= i < |Registered(infos, m)| ==> Registered(infos, m)[i].variant != id
    decreases |infos|
  {
    if infos != [] {
      NotRegisteredLater(infos[1..], id, m);
      var head := EntryRegs(infos[0].ident, infos[0].field, infos[0].entries, m);
      assert Registered(infos, m) == head + Registered(infos[1..], m);
      forall i | 0 <= i < |Registered(infos, m)| ensures Registered(infos, m)[i].variant != id {
        if i >= |head| {
          assert Registered(infos, m)[i] == Registered(infos[1..], m)[i - |head|];
        }
      }
    }
  }

  // ---------------------------------------------------------------------
  // The `From` conversions, generated for every variant.

  /** `impl From<T> for E`: wraps a payload in the variant. */
  function Construct<V>(info: VariantInfo, v: V): (x: EnumValue<V>)
    ensures x.variant == info.ident
  {
    EnumValue(info.ident, v)
  }

  /** `impl From<E> for Option<T>` (and the by-reference impl, which matches
      the same way): the payload of a value of this variant, else `None`. */
  function Inverse<V>(info: VariantInfo, x: EnumValue<V>): (r: Option<V>)
    ensures r.Some? <==> x.variant == info.ident
  {
    if x.variant == info.ident then Some(x.payload) else None
  }

  /** Wrapping a payload and unwrapping it with the same variant gives it
      back; unwrapping with later variant gives `None`. */
  lemma ConversionRoundTrip<V>(infos: seq<VariantInfo>, i: int, j: int, v: V)
    requires DistinctIdents(infos) && 0 <= i < |infos| && 0 <= j < |infos|
    ensures Inverse(infos[i], Construct(infos[i], v)) == Some(v)
    ensures i != j ==> Inverse(infos[j], Construct(infos[i], v)).None?
  {
    if i < j { assert infos[i].ident != infos[j].ident; }
    else if j < i { assert infos[j].ident != infos[i].ident; }
  }

  // ---------------------------------------------------------------------
  // `Display` and the warnings.

  /** One `Display` arm per variant, in declaration order; each forwards to
      the payload's own `Display`. */
  function DisplayArms(infos: seq<VariantInfo>): (r: seq<Ident>)
    ensures |r| == |infos| && forall i :: 0 <= i < |infos| ==> r[i] == infos[i].ident
  {
    if infos == [] then [] else [infos[0].ident] + DisplayArms(infos[1..])
  }

  /** The `T: Display` bounds of the `Display` impl: the payload type of
      every variant whose type the corrected walk finds generic. */
  function DisplayBounds(params: seq<GenericParam>, infos: seq<VariantInfo>): (r: seq<Ty>)
    ensures forall t :: t in r <==> exists i :: 0 <= i < |infos| && FieldTy(infos[i].field) == t && IsVariantGeneric(params, t)
  {
    if infos == [] then []
    else
      var rest := DisplayBounds(params, infos[1..]);
      assert forall i :: 1 <= i < |infos| ==> infos[1..][i - 1] == infos[i];
      var t := FieldTy(infos[0].field);
      if IsVariantGeneric(params, t) then [t] + rest else rest
  }

  /** The bounds the walk as written adds. */
  function DisplayBoundsAsWritten(params: seq<GenericParam>, infos: seq<VariantInfo>): (r: seq<Ty>)
    ensures forall t :: t in r <==> exists i :: 0 <= i < |infos| && FieldTy(infos[i].field) == t && IsVariantGenericAsWritten(params, t)
  {
    if infos == [] then []
    else
      var rest := DisplayBoundsAsWritten(params, infos[1..]);
      assert forall i :: 1 <= i < |infos| ==> infos[1..][i - 1] == infos[i];
      var t := FieldTy(infos[0].field);
      if IsVariantGenericAsWritten(params, t) then [t] + rest else rest
  }

  /** The corrected bounds include every bound of the walk as written, and
      for `enum E<T> { V(Box<T>) }` one more. */
  lemma BoundsCorrected(params: seq<GenericParam>, infos: seq<VariantInfo>)
    ensures forall t :: t in DisplayBoundsAsWritten(params, infos) ==> t in DisplayBounds(params, infos)
  {
    forall t | t in DisplayBoundsAsWritten(params, infos) ensures t in DisplayBounds(params, infos) {
      var i :| 0 <= i < |infos| && FieldTy(infos[i].field) == t && IsVariantGenericAsWritten(params, t);
      AsWrittenImpliesGeneric(params, t);
    }
  }

  /** The corrected bounds are exactly the payload types in which some path
      is rooted at a type parameter. */
  lemma BoundsMention(params: seq<GenericParam>, infos: seq<VariantInfo>)
    ensures forall t :: t in DisplayBounds(params, infos) <==>
      exists i :: 0 <= i < |infos| && FieldTy(infos[i].field) == t && Mentions(t) * TypeParamIdents(params) != {}
  {
    forall t ensures IsVariantGeneric(params, t) <==> Mentions(t) * TypeParamIdents(params) != {} {
      GenericIffMentions(params, t);
    }
  }

  lemma BoxedPayloadBound()
    ensures var infos := [VariantInfo("V", Unnamed(Applied("Box", ParamTy("T"))), [])];
      && DisplayBoundsAsWritten([TypeParam("T")], infos) == []
      && DisplayBounds([TypeParam("T")], infos) == [Applied("Box", ParamTy("T"))]
  {
    BoxedParamMissed();
  }

  /** The note of the warning for a method no variant registers. */
  function WarningNote(m: Method): string {
    match m
    case AsInt => "missing `as_int` attribute"
    case AsFloat => "missing `as_float` attribute"
    case AsStr => "missing `as_str` attribute"
    case AsString => "missing `as_string` attribute"
    case IntoString => "missing `into_string` attribute"
    case AsBoolean => "missing `as_boolean` attribute"
  }

  /** `emit_warnings_tokens` over the methods `ms`, in order. */
  function Warnings(t: Table, ms: seq<Method>): (r: seq<Method>)
    ensures forall m :: m in r <==> m in ms && m !in t
    ensures |r| <= |ms|
  {
    if ms == [] then []
    else (if ms[0] !in t then [ms[0]] else []) + Warnings(t, ms[1..])
  }

  /** A method's place in the declaration order of `Method`. */
  function Rank(m: Method): nat {
    match m
    case AsInt => 0
    case AsFloat => 1
    case AsStr => 2
    case AsString => 3
    case IntoString => 4
    case AsBoolean => 5
  }

  /** Warnings come out in the order of `ms`. */
  lemma {:induction false} WarningsInOrder(t: Table, ms: seq<Method>)
    requires forall i, j :: 0 <= i < j < |ms| ==> Rank(ms[i]) < Rank(ms[j])
    ensures forall i, j :: 0 <= i < j < |Warnings(t, ms)| ==> Rank(Warnings(t, ms)[i]) < Rank(Warnings(t, ms)[j])
  {
    if ms != [] {
      WarningsInOrder(t, ms[1..]);
      var rest := Warnings(t, ms[1..]);
      assert forall i :: 0 <= i < |rest| ==> rest[i] in ms[1..];
      assert forall x :: x in ms[1..] ==> Rank(ms[0]) < Rank(x);
    }
  }

  /** Every method is one of `AllMethods`, listed in declaration order. */
  lemma AllMethodsComplete()
    ensures forall m: Method :: m in AllMethods
    ensures forall i :: 0 <= i < |AllMethods| ==> Rank(AllMethods[i]) == i
  {
    forall m: Method ensures m in AllMethods {
      match m
      case AsInt => assert AllMethods[0] == m;
      case AsFloat => assert AllMethods[1] == m;
      case AsStr => assert AllMethods[2] == m;
      case AsString => assert AllMethods[3] == m;
      case IntoString => assert AllMethods[4] == m;
      case AsBoolean => assert AllMethods[5] == m;
    }
  }

  // ---------------------------------------------------------------------
  // `expand`.

  /** What `#[derive(GraphQLScalarValue)]` generates, reduced to its
      decisions. */
  datatype Generated = Generated(
    variants: seq<VariantInfo>,
    table: Table,
    displayArms: seq<Ident>,
    displayBounds: seq<Ty>,
    warnings: seq<Method>)

  function Expand(input: DeriveInput): (r: Result<Generated, Error>)
    ensures !input.data.EnumData? ==> r == Err(NotEnum)
    ensures input.data.EnumData? ==> (r.Ok? <==> CollectVariants(input.data.variants).Ok?)
    ensures r.Ok? ==> |r.value.variants| == |input.data.variants|
    ensures r.Ok? ==> r.value.displayArms == DisplayArms(r.value.variants)
    ensures r.Ok? ==> forall m :: m in r.value.warnings <==> Registered(r.value.variants, m) == []
    ensures r.Ok? ==> forall i, j :: 0 <= i < j < |r.value.warnings| ==> Rank(r.value.warnings[i]) < Rank(r.value.warnings[j])
    ensures r.Ok? ==> forall m :: m in r.value.table <==> Registered(r.value.variants, m) != []
    ensures r.Ok? ==> forall m :: Lookup(r.value.table, m) == Registered(r.value.variants, m)
    ensures r.Ok? ==> r.value.displayBounds == DisplayBoundsAsWritten(input.generics, r.value.variants)
  {
    if !input.data.EnumData? then Err(NotEnum)
    else
      match CollectVariants(input.data.variants)
      case Err(e) => Err(e)
      case Ok(infos) =>
        var t := BuildTable(map[], infos);
        assert forall m :: (m in t <==> Registered(infos, m) != []) && Lookup(t, m) == Registered(infos, m) by {
          forall m ensures (m in t <==> Registered(infos, m) != []) && Lookup(t, m) == Registered(infos, m) {
            BuildTableMatches(map[], infos, m);
          }
        }
        AllMethodsComplete();
        WarningsInOrder(t, AllMethods);
        Ok(Generated(infos, t, DisplayArms(infos), DisplayBoundsAsWritten(input.generics, infos), Warnings(t, AllMethods)))
  }

  /** `expand` with the corrected generics walk: the same output except
      that every payload type mentioning a type parameter gets its
      `Display` bound, a superset of the bounds the walk as written adds. */
  function ExpandCorrected(input: DeriveInput): (r: Result<Generated, Error>)
    ensures r.Ok? <==> Expand(input).Ok?
    ensures r.Ok? ==> r.value.(displayBounds := []) == Expand(input).value.(displayBounds := [])
    ensures r.Ok? ==> forall t :: t in Expand(input).value.displayBounds ==> t in r.value.displayBounds
    ensures r.Ok? ==> forall t :: t in r.value.displayBounds <==>
      exists i :: 0 <= i < |r.value.variants| && FieldTy(r.value.variants[i].field) == t && Mentions(t) * TypeParamIdents(input.generics) != {}
  {
    match Expand(input)
    case Err(e) => Err(e)
    case Ok(g) =>
      BoundsCorrected(input.generics, g.variants);
      BoundsMention(input.generics, g.variants);
      Ok(g.(displayBounds := DisplayBounds(input.generics, g.variants)))
  }

  /** A variant with a field count other than one is rejected, whether or
      not it carries attributes, unless an earlier variant failed first. */
  lemma BadVariantRejected(input: DeriveInput, k: int)
    requires input.data.EnumData? && 0 <= k < |input.data.variants|
    requires FieldCount(input.data.variants[k].fields) != 1
    ensures Expand(input).Err?
  {
  }
}
