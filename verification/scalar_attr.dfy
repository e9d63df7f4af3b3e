/** The `#[graphql(...)]` arguments of `#[derive(GraphQLScalar)]`: reading
    one attribute into an option record of nine optional slots, merging the
    records of several attributes, and the doc-comment fallback for the
    description (`Attr` in juniper_codegen/src/graphql_scalar/derive.rs). */
module ScalarAttr {
  import opened Wrappers
  import opened Syntax

  /** How raw tokens are parsed: by a user function (`parse_token_with = f`)
      or by trying the listed types in order (`parse_token(T1, ..., Tn)`). */
  datatype ParseToken = ParseWith(f: Path) | ParseAs(tys: seq<Ty>)

  /** The nine slots of the option record. */
  datatype Slot =
    | NameSlot
    | DescriptionSlot
    | UrlSlot
    | ScalarSlot
    | ToOutputSlot
    | FromInputSlot
    | FromInputErrSlot
    | ParseTokenSlot
    | WithSlot

  /** The slots in the order the record declares (and merges) them. */
  const AllSlots: seq<Slot> := [NameSlot, DescriptionSlot, UrlSlot, ScalarSlot,
    ToOutputSlot, FromInputSlot, FromInputErrSlot, ParseTokenSlot, WithSlot]

  /** A value stored in some slot. The `scalar` slot keeps its literal as
      written, since its own grammar is not part of this model. */
  datatype Value =
    | Text(s: string)
    | ScalarValue(lit: Lit)
    | FnPath(p: Path)
    | TypeValue(t: Ty)
    | TokenParser(pt: ParseToken)

  /** Every error `#[derive(GraphQLScalar)]` reports. */
  datatype Error =
    | UnknownArg(key: Ident)
    | DuplicateArg(slot: Slot)
    | MalformedValue(key: Ident)
    | EmptyTypeList(key: Ident)
    | UnpairedFromInput
    | NotStruct
    | WrongFieldCount

  /** Which value shape each slot holds. */
  predicate Fits(s: Slot, v: Value) {
    match s
    case NameSlot => v.Text?
    case DescriptionSlot => v.Text?
    case UrlSlot => v.Text?
    case ScalarSlot => v.ScalarValue?
    case ToOutputSlot => v.FnPath?
    case FromInputSlot => v.FnPath?
    case FromInputErrSlot => v.TypeValue?
    case ParseTokenSlot => v.TokenParser?
    case WithSlot => v.FnPath?
  }

  /** The option record: each slot is set at most once, so the record is a
      partial map from slot to a value of the slot's shape. */
  type Attr = m: map<Slot, Value> | forall s :: s in m ==> Fits(s, m[s]) witness map[]

  /** `Attr::default()`: every slot unset. */
  const Empty: Attr := map[]

  /** Typed views of the slots the strategy selection reads. */
  function NameOf(a: Attr): Option<string> {
    if NameSlot in a then Some(a[NameSlot].s) else None
  }

  function DescriptionOf(a: Attr): Option<string> {
    if DescriptionSlot in a then Some(a[DescriptionSlot].s) else None
  }

  function UrlOf(a: Attr): Option<string> {
    if UrlSlot in a then Some(a[UrlSlot].s) else None
  }

  function ToOutputOf(a: Attr): Option<Path> {
    if ToOutputSlot in a then Some(a[ToOutputSlot].p) else None
  }

  function FromInputOf(a: Attr): Option<Path> {
    if FromInputSlot in a then Some(a[FromInputSlot].p) else None
  }

  function FromInputErrOf(a: Attr): Option<Ty> {
    if FromInputErrSlot in a then Some(a[FromInputErrSlot].t) else None
  }

  function ParseTokenOf(a: Attr): Option<ParseToken> {
    if ParseTokenSlot in a then Some(a[ParseTokenSlot].pt) else None
  }

  function WithOf(a: Attr): Option<Path> {
    if WithSlot in a then Some(a[WithSlot].p) else None
  }

  /** The slot a recognised key fills; aliases share a slot. */
  function SlotOf(key: Ident): (r: Option<Slot>)
    ensures r.None? <==> key !in {"name", "desc", "description", "specified_by_url", "scalar", "Scalar",
      "ScalarValue", "to_output_with", "from_input_with", "from_input_err", "parse_token_with", "parse_token", "with"}
    ensures r == Some(NameSlot) <==> key == "name"
    ensures r == Some(UrlSlot) <==> key == "specified_by_url"
    ensures r == Some(ToOutputSlot) <==> key == "to_output_with"
    ensures r == Some(FromInputSlot) <==> key == "from_input_with"
    ensures r == Some(FromInputErrSlot) <==> key == "from_input_err"
    ensures r == Some(WithSlot) <==> key == "with"
    ensures r == Some(DescriptionSlot) <==> key == "desc" || key == "description"
    ensures r == Some(ScalarSlot) <==> key == "scalar" || key == "Scalar" || key == "ScalarValue"
    ensures r == Some(ParseTokenSlot) <==> key == "parse_token_with" || key == "parse_token"
  {
    if key == "name" then Some(NameSlot)
    else if key == "desc" || key == "description" then Some(DescriptionSlot)
    else if key == "specified_by_url" then Some(UrlSlot)
    else if key == "scalar" || key == "Scalar" || key == "ScalarValue" then Some(ScalarSlot)
    else if key == "to_output_with" then Some(ToOutputSlot)
    else if key == "from_input_with" then Some(FromInputSlot)
    else if key == "from_input_err" then Some(FromInputErrSlot)
    else if key == "parse_token_with" || key == "parse_token" then Some(ParseTokenSlot)
    else if key == "with" then Some(WithSlot)
    else None
  }

  /** The argument forms each slot accepts: a string literal for the name,
      description and URL; a path for the resolver functions and the `with`
      module; any non-string literal for the scalar and the error type; a
      path for `parse_token_with`; and for `parse_token` either `= T` or a
      non-empty `(T1, ..., Tn)`. */
  predicate Accepted(s: Slot, key: Ident, v: ArgValue) {
    match s
    case NameSlot => v.Assign? && v.lit.StrLit?
    case DescriptionSlot => v.Assign? && v.lit.StrLit?
    case UrlSlot => v.Assign? && v.lit.StrLit?
    case ScalarSlot => v.Assign? && !v.lit.StrLit?
    case ToOutputSlot => v.Assign? && v.lit.PathLit?
    case FromInputSlot => v.Assign? && v.lit.PathLit?
    case FromInputErrSlot => v.Assign? && !v.lit.StrLit?
    case ParseTokenSlot =>
      if key == "parse_token_with" then v.Assign? && v.lit.PathLit?
      else (v.Assign? && !v.lit.StrLit?) || (v.TypeList? && v.tys != [])
    case WithSlot => v.Assign? && v.lit.PathLit?
  }

  /** `x` is the meaning of the argument value `v` given under `key`: the
      string, path, literal or type written, or the token parser listed. */
  predicate Reads(key: Ident, v: ArgValue, x: Value) {
    match x
    case Text(t) => v == Assign(StrLit(t))
    case FnPath(p) => v == Assign(PathLit(p))
    case ScalarValue(lit) => v == Assign(lit)
    case TypeValue(t) => v.Assign? && AsType(v.lit) == Some(t)
    case TokenParser(ParseWith(f)) => key == "parse_token_with" && v == Assign(PathLit(f))
    case TokenParser(ParseAs(tys)) =>
      key == "parse_token" && (v == TypeList(tys) || (v.Assign? && AsType(v.lit).Some? && tys == [AsType(v.lit).value]))
  }

  /** Reads the value of one argument whose key fills slot `s`: string
      literals for the name, description and URL, paths for the resolver
      functions and the `with` module, a type for the error type, and for
      `parse_token` either `= T` or a non-empty `(T1, ..., Tn)`. */
  function ParseValue(key: Ident, s: Slot, v: ArgValue): (r: Result<Value, Error>)
    requires SlotOf(key) == Some(s)
    ensures r.Ok? <==> Accepted(s, key, v)
    ensures r.Ok? ==> Fits(s, r.value) && Reads(key, v, r.value)
    ensures r.Err? ==> r.error == MalformedValue(key) || r.error == EmptyTypeList(key)
    ensures r == Err(EmptyTypeList(key)) <==> key == "parse_token" && v == TypeList([])
  {
    match s
    case NameSlot => ParseText(key, v)
    case DescriptionSlot => ParseText(key, v)
    case UrlSlot => ParseText(key, v)
    case ScalarSlot =>
      if v.Assign? && !v.lit.StrLit? then Ok(ScalarValue(v.lit)) else Err(MalformedValue(key))
    case ToOutputSlot => ParseFnPath(key, v)
    case FromInputSlot => ParseFnPath(key, v)
    case WithSlot => ParseFnPath(key, v)
    case FromInputErrSlot =>
      if v.Assign? && AsType(v.lit).Some? then Ok(TypeValue(AsType(v.lit).value))
      else Err(MalformedValue(key))
    case ParseTokenSlot =>
      if key == "parse_token_with" then
        if v.Assign? && v.lit.PathLit? then Ok(TokenParser(ParseWith(v.lit.p)))
        else Err(MalformedValue(key))
      else
        match v
        case Assign(lit) =>
          if AsType(lit).Some? then Ok(TokenParser(ParseAs([AsType(lit).value])))
          else Err(MalformedValue(key))
        case TypeList(tys) =>
          if |tys| == 0 then Err(EmptyTypeList(key)) else Ok(TokenParser(ParseAs(tys)))
        case Bare => Err(MalformedValue(key))
  }

  function ParseText(key: Ident, v: ArgValue): (r: Result<Value, Error>)
    ensures r.Ok? <==> v.Assign? && v.lit.StrLit?
    ensures r.Ok? ==> r.value == Text(v.lit.s)
    ensures r.Err? ==> r.error == MalformedValue(key)
  {
    if v.Assign? && v.lit.StrLit? then Ok(Text(v.lit.s)) else Err(MalformedValue(key))
  }

  function ParseFnPath(key: Ident, v: ArgValue): (r: Result<Value, Error>)
    ensures r.Ok? <==> v.Assign? && v.lit.PathLit?
    ensures r.Ok? ==> r.value == FnPath(v.lit.p)
    ensures r.Err? ==> r.error == MalformedValue(key)
  {
    if v.Assign? && v.lit.PathLit? then Ok(FnPath(v.lit.p)) else Err(MalformedValue(key))
  }

  /** Reads one argument into the slot it fills and the value it carries;
      an unrecognised key is an error. */
  function ParseArg(arg: Arg): (r: Result<(Slot, Value), Error>)
    ensures r.Ok? <==> SlotOf(arg.key).Some? && Accepted(SlotOf(arg.key).value, arg.key, arg.value)
    ensures r.Ok? ==> SlotOf(arg.key) == Some(r.value.0) && Fits(r.value.0, r.value.1)
    ensures r.Ok? ==> Reads(arg.key, arg.value, r.value.1)
    ensures r == Err(UnknownArg(arg.key)) <==> SlotOf(arg.key).None?
    ensures r == Err(EmptyTypeList(arg.key)) <==> arg.key == "parse_token" && arg.value == TypeList([])
  {
    match SlotOf(arg.key)
    case None => Err(UnknownArg(arg.key))
    case Some(s) =>
      var v :- ParseValue(arg.key, s, arg.value);
      Ok((s, v))
  }

  /** Every argument is well formed on its own. */
  ghost predicate ArgsOk(args: seq<Arg>) {
    forall i :: 0 <= i < |args| ==> ParseArg(args[i]).Ok?
  }

  /** No two arguments fill the same slot. */
  ghost predicate DistinctSlots(args: seq<Arg>) {
    forall i, j :: 0 <= i < j < |args| ==> SlotOf(args[i].key) != SlotOf(args[j].key)
  }

  /** No argument fills a slot `acc` already has. */
  ghost predicate FreshFor(acc: Attr, args: seq<Arg>) {
    forall i :: 0 <= i < |args| && SlotOf(args[i].key).Some? ==> SlotOf(args[i].key).value !in acc
  }

  /** The slots the recognised keys of `args` name. */
  ghost function Named(args: seq<Arg>): set<Slot>
    decreases |args|
  {
    if args == [] then {}
    else (if SlotOf(args[0].key).Some? then {SlotOf(args[0].key).value} else {}) + Named(args[1..])
  }

  /** A recognised first key adds its slot to those of the rest. */
  lemma NamedCons(args: seq<Arg>)
    requires |args| > 0 && SlotOf(args[0].key).Some?
    ensures Named(args) == {SlotOf(args[0].key).value} + Named(args[1..])
  {
  }

  /** The argument loop of `Attr::parse`, continuing from `acc`: each
      argument's value is read first, then its slot must still be free. A
      successful run only adds slots. */
  function ParseFrom(acc: Attr, args: seq<Arg>): (r: Result<Attr, Error>)
    ensures r.Ok? ==> acc.Keys <= r.value.Keys
    decreases |args|
  {
    if args == [] then Ok(acc)
    else
      match ParseArg(args[0])
      case Err(e) => Err(e)
      case Ok((s, v)) =>
        if s in acc then Err(DuplicateArg(s))
        else ParseFrom(acc[s := v], args[1..])
  }

  /** The argument loop succeeds exactly when every argument is well formed,
      no two name the same slot and none names a slot `acc` has; it then
      holds `acc`'s slots and the named ones. */
  lemma {:induction false} ParseFromCharacterized(acc: Attr, args: seq<Arg>)
    ensures ParseFrom(acc, args).Ok? <==> ArgsOk(args) && DistinctSlots(args) && FreshFor(acc, args)
    ensures ParseFrom(acc, args).Ok? ==> ParseFrom(acc, args).value.Keys == acc.Keys + Named(args)
    decreases |args|
  {
    if args != [] && ParseArg(args[0]).Ok? && ParseArg(args[0]).value.0 !in acc {
      var (s, v) := ParseArg(args[0]).value;
      ParseFromStep(acc, args);
      NamedCons(args);
      ParseFromCharacterized(acc[s := v], args[1..]);
    }
  }

  /** One step of the argument loop: after a good first argument whose slot
      is free, the conditions for the whole list are those for the rest. */
  lemma ParseFromStep(acc: Attr, args: seq<Arg>)
    requires |args| > 0 && ParseArg(args[0]).Ok? && ParseArg(args[0]).value.0 !in acc
    ensures var (s, v) := ParseArg(args[0]).value;
      && (ArgsOk(args) && DistinctSlots(args) && FreshFor(acc, args)
          <==> ArgsOk(args[1..]) && DistinctSlots(args[1..]) && FreshFor(acc[s := v], args[1..]))
  {
    var (s, v) := ParseArg(args[0]).value;
    if ArgsOk(args) && DistinctSlots(args) && FreshFor(acc, args) {
      StepForward(acc, args);
    }
    if ArgsOk(args[1..]) && DistinctSlots(args[1..]) && FreshFor(acc[s := v], args[1..]) {
      StepBack(acc, args);
    }
  }

  lemma StepForward(acc: Attr, args: seq<Arg>)
    requires |args| > 0 && ParseArg(args[0]).Ok?
    requires ArgsOk(args) && DistinctSlots(args) && FreshFor(acc, args)
    ensures var (s, v) := ParseArg(args[0]).value;
      ArgsOk(args[1..]) && DistinctSlots(args[1..]) && FreshFor(acc[s := v], args[1..])
  {
    var (s, v) := ParseArg(args[0]).value;
    var rest := args[1..];
    forall i | 0 <= i < |rest| ensures ParseArg(rest[i]).Ok? {
      assert rest[i] == args[i + 1];
    }
    forall i, j | 0 <= i < j < |rest| ensures SlotOf(rest[i].key) != SlotOf(rest[j].key) {
      assert rest[i] == args[i + 1] && rest[j] == args[j + 1];
    }
    forall i | 0 <= i < |rest| && SlotOf(rest[i].key).Some? ensures SlotOf(rest[i].key).value !in acc[s := v] {
      assert rest[i] == args[i + 1];
      assert SlotOf(args[0].key) != SlotOf(args[i + 1].key);
    }
  }

  lemma StepBack(acc: Attr, args: seq<Arg>)
    requires |args| > 0 && ParseArg(args[0]).Ok? && ParseArg(args[0]).value.0 !in acc
    requires var (s, v) := ParseArg(args[0]).value;
      ArgsOk(args[1..]) && DistinctSlots(args[1..]) && FreshFor(acc[s := v], args[1..])
    ensures ArgsOk(args) && DistinctSlots(args) && FreshFor(acc, args)
  {
    var (s, v) := ParseArg(args[0]).value;
    var rest := args[1..];
    forall i | 0 <= i < |args| ensures ParseArg(args[i]).Ok? {
      if i > 0 { assert args[i] == rest[i - 1]; }
    }
    forall i, j | 0 <= i < j < |args| ensures SlotOf(args[i].key) != SlotOf(args[j].key) {
      assert args[j] == rest[j - 1];
      if i == 0 {
        assert SlotOf(rest[j - 1].key).value !in acc[s := v];
      } else {
        assert args[i] == rest[i - 1];
      }
    }
    forall i | 0 <= i < |args| && SlotOf(args[i].key).Some? ensures SlotOf(args[i].key).value !in acc {
      if i > 0 { assert args[i] == rest[i - 1]; }
    }
  }

  /** A successful parse keeps each slot `acc` already had, unchanged. */
  lemma {:induction false} ParseFromKeeps(acc: Attr, args: seq<Arg>, s: Slot)
    requires ParseFrom(acc, args).Ok? && s in acc
    ensures s in ParseFrom(acc, args).value && ParseFrom(acc, args).value[s] == acc[s]
    decreases |args|
  {
    if args != [] {
      var (s0, v0) := ParseArg(args[0]).value;
      assert ParseFrom(acc, args) == ParseFrom(acc[s0 := v0], args[1..]);
      ParseFromKeeps(acc[s0 := v0], args[1..], s);
    }
  }

  /** A successful parse stores argument `i`'s own value under its slot. */
  lemma {:induction false} ParseFromValues(acc: Attr, args: seq<Arg>, i: int)
    requires ParseFrom(acc, args).Ok? && 0 <= i < |args|
    ensures ParseArg(args[i]).Ok?
    ensures ParseArg(args[i]).value.0 in ParseFrom(acc, args).value
    ensures ParseFrom(acc, args).value[ParseArg(args[i]).value.0] == ParseArg(args[i]).value.1
    decreases |args|
  {
    var (s0, v0) := ParseArg(args[0]).value;
    var acc' := acc[s0 := v0];
    assert ParseFrom(acc, args) == ParseFrom(acc', args[1..]);
    if i > 0 {
      assert args[1..][i - 1] == args[i];
      ParseFromValues(acc', args[1..], i - 1);
    } else {
      ParseFromKeeps(acc', args[1..], s0);
    }
  }

  /** `Attr::parse`: reads one attribute's argument list. Each recognised key
      fills its slot once; a second key for the same slot, an unknown key or
      a malformed value is an error. */
  function ParseArgs(args: seq<Arg>): Result<Attr, Error>
  {
    ParseFrom(Empty, args)
  }

  /** One attribute parses exactly when its arguments are well formed and
      fill distinct slots. */
  lemma ParseArgsCharacterized(args: seq<Arg>)
    ensures ParseArgs(args).Ok? <==> ArgsOk(args) && DistinctSlots(args)
  {
    ParseFromCharacterized(Empty, args);
  }

  /** A parsed attribute holds exactly the slots its keys name. */
  lemma ParseArgsSlots(args: seq<Arg>)
    requires ParseArgs(args).Ok?
    ensures ParseArgs(args).value.Keys == Named(args)
  {
    ParseFromCharacterized(Empty, args);
  }

  /** `#[graphql(name = "Foo", parse_token(i32, String))]` names the scalar
      `Foo` and parses raw tokens by trying `i32`, then `String`. */
  lemma NameAndTokensRead()
    ensures var tys := [PathTy(None, IdentPath("i32")), PathTy(None, IdentPath("String"))];
      var args := [Arg("name", Assign(StrLit("Foo"))), Arg("parse_token", TypeList(tys))];
      && ParseArgs(args).Ok?
      && NameOf(ParseArgs(args).value) == Some("Foo")
      && ParseTokenOf(ParseArgs(args).value) == Some(ParseAs(tys))
  {
    var tys := [PathTy(None, IdentPath("i32")), PathTy(None, IdentPath("String"))];
    var args := [Arg("name", Assign(StrLit("Foo"))), Arg("parse_token", TypeList(tys))];
    assert ParseArg(args[0]) == Ok((NameSlot, Text("Foo")));
    assert ParseArg(args[1]) == Ok((ParseTokenSlot, TokenParser(ParseAs(tys))));
    ParseArgsCharacterized(args);
    ParseArgsValues(args, 0);
    ParseArgsValues(args, 1);
  }

  /** A successful parse stores every argument's own value under its slot. */
  lemma ParseArgsValues(args: seq<Arg>, i: int)
    requires ParseArgs(args).Ok? && 0 <= i < |args|
    ensures ParseArg(args[i]).Ok?
    ensures ParseArg(args[i]).value.0 in ParseArgs(args).value
    ensures ParseArgs(args).value[ParseArg(args[i]).value.0] == ParseArg(args[i]).value.1
  {
    ParseFromValues(Empty, args, i);
  }

  /** A failing parse reports the first offending argument: an argument
      whose own value is bad, or one whose slot is already filled. */
  lemma {:induction false} ParseFromError(acc: Attr, args: seq<Arg>)
    requires ParseFrom(acc, args).Err?
    ensures exists k :: 0 <= k < |args| && FirstFailure(acc, args, k, ParseFrom(acc, args).error)
    decreases |args|
  {
    var a0 := ParseArg(args[0]);
    if a0.Err? {
      assert FirstFailure(acc, args, 0, ParseFrom(acc, args).error);
    } else {
      var (s, v) := a0.value;
      if s in acc {
        assert FirstFailure(acc, args, 0, ParseFrom(acc, args).error);
      } else {
        var acc' := acc[s := v];
        ParseFromError(acc', args[1..]);
        var k :| 0 <= k < |args[1..]| && FirstFailure(acc', args[1..], k, ParseFrom(acc', args[1..]).error);
        FirstFailureShift(acc, args, k, ParseFrom(acc, args).error);
      }
    }
  }

  /** Argument `k` of `args` is the first to fail, with error `e`, when
      parsing continues from `acc`. */
  ghost predicate FirstFailure(acc: Attr, args: seq<Arg>, k: nat, e: Error)
    requires k < |args|
  {
    && ArgsOk(args[..k]) && DistinctSlots(args[..k]) && FreshFor(acc, args[..k])
    && (|| ParseArg(args[k]) == Err(e)
        || (&& ParseArg(args[k]).Ok?
            && var s := ParseArg(args[k]).value.0;
            && e == DuplicateArg(s)
            && (s in acc || exists j :: 0 <= j < k && SlotOf(args[j].key) == Some(s))))
  }

  lemma FirstFailureShift(acc: Attr, args: seq<Arg>, k: nat, e: Error)
    requires 0 < |args| && ParseArg(args[0]).Ok? && ParseArg(args[0]).value.0 !in acc
    requires k < |args| - 1
    requires FirstFailure(acc[ParseArg(args[0]).value.0 := ParseArg(args[0]).value.1], args[1..], k, e)
    ensures FirstFailure(acc, args, k + 1, e)
  {
    var (s, v) := ParseArg(args[0]).value;
    var acc' := acc[s := v];
    var pre := args[..k + 1];
    assert pre == [args[0]] + args[1..][..k];
    assert forall i :: 1 <= i < |pre| ==> pre[i] == args[1..][..k][i - 1];
    assert ArgsOk(pre);
    assert FreshFor(acc, pre);
    forall i, j | 0 <= i < j < |pre|
      ensures SlotOf(pre[i].key) != SlotOf(pre[j].key)
    {
      if i == 0 {
        assert SlotOf(args[1..][..k][j - 1].key).value !in acc';
      }
    }
    assert args[k + 1] == args[1..][k];
    if ParseArg(args[k + 1]).Ok? && ParseArg(args[k + 1]) != Err(e) {
      var s' := ParseArg(args[k + 1]).value.0;
      if s' in acc' && s' !in acc {
        assert SlotOf(args[0].key) == Some(s');
      } else if s' !in acc' {
        var j :| 0 <= j < k && SlotOf(args[1..][j].key) == Some(s');
        assert args[1..][j] == args[j + 1];
      }
    }
  }

  /** The first slot of `slots` that both records set. */
  function FirstShared(slots: seq<Slot>, a: Attr, b: Attr): (r: Option<Slot>)
    ensures r.Some? ==> r.value in slots && r.value in a && r.value in b
    ensures r.None? <==> forall i :: 0 <= i < |slots| ==> !(slots[i] in a && slots[i] in b)
  {
    if slots == [] then None
    else if slots[0] in a && slots[0] in b then Some(slots[0])
    else FirstShared(slots[1..], a, b)
  }

  /** `Attr::try_merge`: the union of two records, slot by slot in
      declaration order; a slot set on both sides is a duplicate. */
  function Merge(a: Attr, b: Attr): (r: Result<Attr, Error>)
    ensures r.Ok? <==> a.Keys !! b.Keys
    ensures r.Ok? ==> r.value.Keys == a.Keys + b.Keys
    ensures r.Ok? ==> forall s :: s in r.value ==> r.value[s] == (if s in a then a[s] else b[s])
    ensures r.Err? ==> r.error.DuplicateArg? && r.error.slot in a && r.error.slot in b
  {
    match FirstShared(AllSlots, a, b)
    case Some(s) => Err(DuplicateArg(s))
    case None =>
      assert forall s :: s in a ==> s !in b by {
        forall s | s in a ensures s !in b {
          assert s in AllSlots;
          var i :| 0 <= i < |AllSlots| && AllSlots[i] == s;
        }
      }
      Ok(a + b)
  }

  /** Duplicate detection does not depend on which record comes first, and
      a successful merge gives the same record either way round. */
  lemma MergeCommutes(a: Attr, b: Attr)
    ensures Merge(a, b).Ok? <==> Merge(b, a).Ok?
    ensures Merge(a, b).Ok? ==> Merge(a, b) == Merge(b, a)
  {
    if Merge(a, b).Ok? {
      assert Merge(a, b).value == Merge(b, a).value;
    }
  }

  /** The empty record is a neutral element of merging. */
  lemma MergeEmpty(a: Attr)
    ensures Merge(Empty, a) == Ok(a)
    ensures Merge(a, Empty) == Ok(a)
  {
    assert Empty + a == a;
    assert a + Empty == a;
  }

  /** Record `i` of `rs` parsed and sets slot `s`. */
  ghost predicate Sets(rs: seq<Result<Attr, Error>>, i: int, s: Slot) {
    0 <= i < |rs| && rs[i].Ok? && s in rs[i].value
  }

  /** Every record parsed. */
  ghost predicate AllOk(rs: seq<Result<Attr, Error>>) {
    forall i :: 0 <= i < |rs| ==> rs[i].Ok?
  }

  /** No slot is set twice: not by two records, nor by a record and `acc`. */
  ghost predicate Disjoint(acc: Attr, rs: seq<Result<Attr, Error>>) {
    && (forall i, s :: Sets(rs, i, s) ==> s !in acc)
    && (forall i, j, s :: i < j && Sets(rs, i, s) ==> !Sets(rs, j, s))
  }

  /** The `try_fold` of `Attr::from_attrs`: take the parse result of each
      attribute in turn and merge it into what came before, stopping at the
      first error, whether a parse error or a duplicate. */
  function MergeAll(acc: Attr, rs: seq<Result<Attr, Error>>): (r: Result<Attr, Error>)
    ensures r.Ok? <==> AllOk(rs) && Disjoint(acc, rs)
    ensures r.Err? && AllOk(rs) ==> r.error.DuplicateArg?
    decreases |rs|
  {
    if rs == [] then Ok(acc)
    else if rs[0].Err? then Err(rs[0].error)
    else
      match Merge(acc, rs[0].value)
      case Err(e) =>
        assert Sets(rs, 0, e.slot);
        Err(e)
      case Ok(merged) =>
        MergeAllStep(acc, rs);
        MergeAll(merged, rs[1..])
  }

  /** One step of the fold: once the first record merges cleanly, the
      conditions for the whole sequence are those for the rest. */
  lemma MergeAllStep(acc: Attr, rs: seq<Result<Attr, Error>>)
    requires |rs| > 0 && rs[0].Ok? && Merge(acc, rs[0].value).Ok?
    ensures AllOk(rs) <==> AllOk(rs[1..])
    ensures Disjoint(acc, rs) <==> Disjoint(Merge(acc, rs[0].value).value, rs[1..])
    ensures forall i, s :: 1 <= i < |rs| ==> (Sets(rs, i, s) <==> Sets(rs[1..], i - 1, s))
  {
    var m := Merge(acc, rs[0].value).value;
    assert forall i :: 1 <= i < |rs| ==> rs[1..][i - 1] == rs[i];
    forall i, s | 1 <= i < |rs| ensures Sets(rs, i, s) <==> Sets(rs[1..], i - 1, s) {
      assert rs[1..][i - 1] == rs[i];
    }
    if Disjoint(m, rs[1..]) {
      forall i, j, s | i < j && Sets(rs, i, s) ensures !Sets(rs, j, s) {
        if i == 0 {
          assert !Sets(rs[1..], j - 1, s);
        } else {
          assert !Sets(rs[1..], j - 1, s);
        }
      }
      forall i, s | Sets(rs, i, s) ensures s !in acc {
        if i > 0 { assert Sets(rs[1..], i - 1, s); }
      }
    }
    if Disjoint(acc, rs) {
      forall i, s | Sets(rs[1..], i, s) ensures s !in m {
        assert Sets(rs, i + 1, s);
        assert !Sets(rs, 0, s);
      }
      forall i, j, s | i < j && Sets(rs[1..], i, s) ensures !Sets(rs[1..], j, s) {
        assert Sets(rs, i + 1, s);
        assert !Sets(rs, j + 1, s);
      }
    }
  }

  /** What a successful fold stores under slot `s`: the value of the record
      that set it, or `acc`'s value, unchanged; an unset slot stays absent. */
  lemma {:induction false} MergeAllValues(acc: Attr, rs: seq<Result<Attr, Error>>, s: Slot)
    requires MergeAll(acc, rs).Ok?
    ensures forall i :: Sets(rs, i, s) ==> s in MergeAll(acc, rs).value && MergeAll(acc, rs).value[s] == rs[i].value[s]
    ensures s in acc ==> s in MergeAll(acc, rs).value && MergeAll(acc, rs).value[s] == acc[s]
    ensures s in MergeAll(acc, rs).value ==> s in acc || exists i :: Sets(rs, i, s)
    decreases |rs|
  {
    if rs != [] {
      var m := Merge(acc, rs[0].value).value;
      MergeAllStep(acc, rs);
      assert MergeAll(acc, rs) == MergeAll(m, rs[1..]);
      MergeAllValues(m, rs[1..], s);
      var r := MergeAll(acc, rs).value;
      forall i | Sets(rs, i, s) ensures s in r && r[s] == rs[i].value[s] {
        if i > 0 { assert Sets(rs[1..], i - 1, s); }
      }
      if s in r && s !in acc {
        if s !in m {
          var i :| Sets(rs[1..], i, s);
          assert Sets(rs, i + 1, s);
        } else {
          assert Sets(rs, 0, s);
        }
      }
    }
  }

  /** The parse result of every attribute, in order. */
  function ParseAll(frags: seq<seq<Arg>>): (rs: seq<Result<Attr, Error>>)
    ensures |rs| == |frags|
    ensures forall i :: 0 <= i < |frags| ==> rs[i] == ParseArgs(frags[i])
  {
    seq(|frags|, i requires 0 <= i < |frags| => ParseArgs(frags[i]))
  }

  /** `Attr::from_attrs`: every `#[graphql]` attribute of the declaration
      merged into one record; the doc comment stands in for a description no
      attribute gave. */
  function FromAttrs(frags: seq<seq<Arg>>, doc: Option<string>): (r: Result<Attr, Error>)
    ensures r.Ok? <==> AllOk(ParseAll(frags)) && Disjoint(Empty, ParseAll(frags))
  {
    var a :- MergeAll(Empty, ParseAll(frags));
    Ok(if DescriptionSlot in a then a
       else if doc.Some? then a[DescriptionSlot := Text(doc.value)]
       else a)
  }

  /** What `from_attrs` stores: each slot with the value of the attribute
      that set it; only set slots and the description are present; the doc
      comment is the description exactly when no attribute gave one. */
  lemma FromAttrsValues(frags: seq<seq<Arg>>, doc: Option<string>, i: int, s: Slot)
    requires FromAttrs(frags, doc).Ok?
    ensures Sets(ParseAll(frags), i, s) ==>
      s in FromAttrs(frags, doc).value && FromAttrs(frags, doc).value[s] == ParseAll(frags)[i].value[s]
    ensures s in FromAttrs(frags, doc).value && s != DescriptionSlot ==> exists k :: Sets(ParseAll(frags), k, s)
    ensures (forall k :: !Sets(ParseAll(frags), k, DescriptionSlot)) ==> DescriptionOf(FromAttrs(frags, doc).value) == doc
  {
    var rs := ParseAll(frags);
    var m := MergeAll(Empty, rs).value;
    assert FromAttrs(frags, doc).value
        == if DescriptionSlot in m then m
           else if doc.Some? then m[DescriptionSlot := Text(doc.value)]
           else m;
    MergeAllValues(Empty, rs, s);
    MergeAllValues(Empty, rs, DescriptionSlot);
  }

  /** Attributes `i` and `j`, in either order, both parse and set `s`, and
      every attribute parses: the merge fails with a duplicate-argument
      error. */
  lemma DuplicateAcrossFragments(frags: seq<seq<Arg>>, doc: Option<string>, i: int, j: int, s: Slot)
    requires AllOk(ParseAll(frags))
    requires i != j && Sets(ParseAll(frags), i, s) && Sets(ParseAll(frags), j, s)
    ensures FromAttrs(frags, doc).Err? && FromAttrs(frags, doc).error.DuplicateArg?
  {
  }
}
