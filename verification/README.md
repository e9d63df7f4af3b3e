# Juniper scalar derives and the alias-limit rule, in Dafny

This project models three pieces of the Juniper GraphQL library and proves
properties about them.

- `#[derive(GraphQLScalar)]` (`juniper_codegen/src/graphql_scalar/derive.rs`).
  The `#[graphql(...)]` arguments are read into an option record (`Attr`), one
  slot per option. Several attributes are merged into one record, and the doc
  comment stands in for a missing description. A strategy is then chosen:
  - `Custom`: every behaviour comes from a user function.
  - `Delegated`: a single-field struct forwards each behaviour it does not
    override to its field.

  The generated method bodies are modelled as a small `Code` datatype. It is
  evaluated against an environment of uninterpreted functions (the user's
  resolvers, the field type's trait methods). That makes "the generated code
  does what the attributes ask for" a statement Dafny can check. The
  generated metadata (name, description, URL, reflection constants) is
  modelled as data.
- `#[derive(GraphQLScalarValue)]` (`juniper_codegen/src/derive_scalar_value.rs`).
  The per-variant `#[graphql(as_int, as_str = f, ...)]` entries are parsed
  and merged. They are collected into the method table (method to variants,
  in declaration order). The model covers the `ScalarValue` projections that
  table generates, the `From` conversions, the `Display` arms and bounds
  (with the `IsVariantGeneric` type walk), and the missing-method warnings.
- The `LimitNumberOfAliases` validation rule
  (`juniper/src/validation/rules/limit_number_of_aliases.rs`). It is a
  visitor with an 8-bit counter, modelled as a fold over the visitor's
  callbacks. It is compared with a reference that counts aliases since the
  last operation directly.

Modules:
- `Wrappers` holds `Option` and `Result`.
- `Syntax` holds paths, types, raw attribute arguments and struct/enum fields.
- `ScalarAttr` reads, merges and collects the options of `GraphQLScalar`.
- `ScalarDerive` chooses the strategy and generates the code and metadata.
- `GenericCheck` holds the generic-parameter walk, as written and corrected.
- `ScalarValueDerive` models `GraphQLScalarValue`.
- `AliasLimit` models the validation rule.

Two behaviours of the code that are easy to misread, and that the model
follows as written:
- A `with = M` option always gives the `Custom` strategy, because every
  missing resolver is filled from `M`. It never falls back to delegation.
  The `from_input_with`/`from_input_err` pairing is checked only when there
  is no `with`.
- A `Display` bound is added for a variant's payload type exactly when the
  generic walk as written sets `check.res`. That walk only recognises a
  type parameter that appears as a bare identifier, so `Box<T>` and
  `T::Assoc` get no bound. `ScalarValueDerive.Expand` uses this walk. The
  corrected walk is used only by `ScalarValueDerive.ExpandCorrected` (see
  "## Findings").

## Model

| member | source | states |
|---|---|---|
| Syntax.GetIdent | juniper_codegen/src/derive_scalar_value.rs:467 | a path names a plain identifier exactly when it is one segment without arguments, and then it is that identifier |
| Syntax.SingleField | juniper_codegen/src/graphql_scalar/derive.rs:81-111 | a struct has a usable field exactly when it has one field, named or unnamed, and the result is that field |
| ScalarAttr.SlotOf | juniper_codegen/src/graphql_scalar/derive.rs:205-310 | each of `name`, `specified_by_url`, `to_output_with`, `from_input_with`, `from_input_err` and `with` fills its own slot. The aliases `desc`/`description`, `scalar`/`Scalar`/`ScalarValue` and `parse_token_with`/`parse_token` each fill a shared slot. Exactly the other keys have no slot |
| ScalarAttr.ParseValue | juniper_codegen/src/graphql_scalar/derive.rs:206-303 | a value is accepted exactly in its slot's form. Name, description and URL take a string literal. The resolver functions, `with` and `parse_token_with` take a path. The scalar and the error type take a non-string literal. `parse_token` takes `= T` or a non-empty `(T1, ..., Tn)`. The stored value is the string, path, literal, type or type list written. The only errors are a malformed value and an empty type list, and the latter happens exactly for `parse_token()` |
| ScalarAttr.ParseArg | juniper_codegen/src/graphql_scalar/derive.rs:203-310 | an argument is accepted exactly when its key names a slot and its value has that slot's form. It is read into that slot, holding the value written. An unknown key is an unknown-argument error exactly when the key has no slot |
| ScalarAttr.ParseFrom | juniper_codegen/src/graphql_scalar/derive.rs:202-316 | reading arguments on top of a record never drops a slot it already had |
| ScalarAttr.ParseFromCharacterized | juniper_codegen/src/graphql_scalar/derive.rs:202-316 | reading succeeds exactly when every argument is well formed, no two fill the same slot and none fills a slot already set; the record then holds exactly the named slots |
| ScalarAttr.ParseFromKeeps | juniper_codegen/src/graphql_scalar/derive.rs:209-216 | a slot already set keeps its value through the rest of the arguments |
| ScalarAttr.ParseFromValues | juniper_codegen/src/graphql_scalar/derive.rs:203-313 | after a successful read, each argument's value sits in the slot its key names |
| ScalarAttr.ParseArgsCharacterized | juniper_codegen/src/graphql_scalar/derive.rs:201-316 | one attribute parses exactly when its arguments are well formed and no two fill the same slot |
| ScalarAttr.ParseArgsSlots | juniper_codegen/src/graphql_scalar/derive.rs:201-316 | a parsed attribute holds exactly the slots its keys name, no more |
| ScalarAttr.NameAndTokensRead | juniper_codegen/src/graphql_scalar/derive.rs:206-303 | `#[graphql(name = "Foo", parse_token(i32, String))]` gives the name `Foo` and a token parser that tries `i32`, then `String` |
| ScalarAttr.ParseArgsValues | juniper_codegen/src/graphql_scalar/derive.rs:203-313 | each argument of a parsed attribute is stored under its own slot |
| ScalarAttr.ParseFromError | juniper_codegen/src/graphql_scalar/derive.rs:203-313 | a failed read reports the first offending argument: its own value is bad, or its slot was already filled before it |
| ScalarAttr.Merge | juniper_codegen/src/graphql_scalar/derive.rs:322-334 | two records merge exactly when they set no common slot; the result holds each slot from the side that set it; a failure names a slot both set |
| ScalarAttr.MergeCommutes | juniper_codegen/src/graphql_scalar/derive.rs:322-334 | whether merging fails does not depend on the order of the two records, and a successful merge gives the same record either way |
| ScalarAttr.MergeEmpty | juniper_codegen/src/graphql_scalar/derive.rs:322-340 | the empty record the fold starts from is neutral for merging |
| ScalarAttr.MergeAll | juniper_codegen/src/graphql_scalar/derive.rs:339-341 | folding parse results succeeds exactly when every attribute parsed and no slot is set twice; with every attribute parsed, a failure is a duplicate |
| ScalarAttr.MergeAllValues | juniper_codegen/src/graphql_scalar/derive.rs:339-341 | after the fold, a slot holds the value of the attribute that set it, and a slot no attribute set is absent |
| ScalarAttr.FromAttrs | juniper_codegen/src/graphql_scalar/derive.rs:338-347 | collecting attributes succeeds exactly when each one parses and no slot is set by two of them |
| ScalarAttr.FromAttrsValues | juniper_codegen/src/graphql_scalar/derive.rs:338-347 | each slot carries the value of the attribute that set it; only set slots and the description are present; with no description attribute the description is the doc comment |
| ScalarAttr.DuplicateAcrossFragments | juniper_codegen/src/graphql_scalar/derive.rs:322-341 | two attributes that set the same slot make collection fail with a duplicate-argument error, whichever comes first |
| ScalarDerive.StructField | juniper_codegen/src/graphql_scalar/derive.rs:69-105 | the derive finds a field to delegate to exactly when the input is a struct with one field |
| ScalarDerive.SelectMethods | juniper_codegen/src/graphql_scalar/derive.rs:35-116 | `Custom` exactly when `with` is given or all four resolvers are; with `with`, explicit values win and the others are `M::to_output`, `M::from_input`, `M::Error`, `M::parse_token`; each error exactly in its case; otherwise `Delegated` with the given overrides and the single field |
| ScalarDerive.ConstructorMatchesAccessor | juniper_codegen/src/graphql_scalar/derive.rs:1015-1042 | rebuilding the struct with the field's constructor and reading it back with the field's accessor returns the value |
| ScalarDerive.Chain | juniper_codegen/src/graphql_scalar/derive.rs:982-1001 | the fold over a type list yields code unless it starts empty on an empty list |
| ScalarDerive.ChainTriesInOrder | juniper_codegen/src/graphql_scalar/derive.rs:985-1001 | the chain tries the types in list order, after whatever it started with |
| ScalarDerive.ExpandFromStrTriesInOrder | juniper_codegen/src/graphql_scalar/derive.rs:982-1001 | `parse_token(T1, ..., Tn)` tries exactly T1 to Tn, in that order |
| ScalarDerive.ChainMeaning | juniper_codegen/src/graphql_scalar/derive.rs:985-1001 | a chained `or_else` keeps an earlier success and otherwise tries the later types in order |
| ScalarDerive.ParseChainIsFirstSuccess | juniper_codegen/src/graphql_scalar/derive.rs:962-1001 | the generated parser returns the first type's success, or the last type's failure when all fail |
| ScalarDerive.EmitMeansIntended | juniper_codegen/src/graphql_scalar/derive.rs:829-960 | each generated behaviour calls the explicit resolver, else the `with` module's member, else the field's own behaviour (for `from_input` mapped through the field constructor) |
| ScalarDerive.NewtypeDelegatesAll | juniper_codegen/src/graphql_scalar/derive.rs:60-116 | a one-field tuple struct with no resolver options is `Delegated`; each behaviour is the field's own, and the error type is the field type's |
| ScalarDerive.ErrorTypeFollowsAttrs | juniper_codegen/src/graphql_scalar/derive.rs:899-917 | the input error type is the explicit type, else `M::Error`, else the field type's `FromInputValue::Error` |
| ScalarDerive.MetaCalls | juniper_codegen/src/graphql_scalar/derive.rs:442-484 | the schema builder gets a description call exactly when there is a description and a URL call exactly when there is a URL, description first |
| ScalarDerive.Generate | juniper_codegen/src/graphql_scalar/derive.rs:396-408 | the name defaults to the type's identifier; the reflection name is the name, the subtype list is just it, the wrapped value is 1; every behaviour gets a body |
| ScalarDerive.Expand | juniper_codegen/src/graphql_scalar/derive.rs:30-135 | the derive succeeds exactly when the attributes collect and a strategy is chosen, and then every behaviour gets a body |
| ScalarDerive.ExpandMetadata | juniper_codegen/src/graphql_scalar/derive.rs:119-131 | the name is the attribute's or the identifier; the description is the attribute's or the doc comment; a URL is listed exactly when an attribute gives one; the input error type is the selected strategy's |
| GenericCheck.TypeParamIdents | juniper_codegen/src/derive_scalar_value.rs:468-474 | an identifier counts as a parameter exactly when it is a type parameter; lifetimes and consts never count |
| GenericCheck.GenericIffMentions | juniper_codegen/src/derive_scalar_value.rs:445-482 | the corrected walk reports a type generic exactly when some path in it, at any depth, is rooted at a type parameter. This covers `T`, `Box<T>` and `T::Assoc` |
| GenericCheck.AsWrittenImpliesGeneric | juniper_codegen/src/derive_scalar_value.rs:466-479 | whatever the walk as written reports generic, the corrected walk does too |
| GenericCheck.AssocParamMissed | juniper_codegen/src/derive_scalar_value.rs:466-479 | for `T::Assoc` with type parameter `T`, the walk as written answers not generic and the corrected walk answers generic |
| GenericCheck.BoxedParamMissed | juniper_codegen/src/derive_scalar_value.rs:466-479 | for `Box<T>` with type parameter `T`, the walk as written answers not generic and the corrected walk answers generic |
| GenericCheck.OnlyTypeParamsCount | juniper_codegen/src/derive_scalar_value.rs:468-474 | adding lifetime or const parameters changes neither walk's answer |
| GenericCheck.SameTypeParamsAsWritten | juniper_codegen/src/derive_scalar_value.rs:468-474 | the walk as written depends only on which identifiers are type parameters |
| ScalarValueDerive.MethodOf | juniper_codegen/src/derive_scalar_value.rs:85-95 | `as_bool` and `as_boolean` both select `as_boolean`; any name other than the seven is unknown |
| ScalarValueDerive.ParseEntry | juniper_codegen/src/derive_scalar_value.rs:84-103 | an entry parses exactly when its name is a method and it is bare or `= path`; it carries a resolver exactly when one is given |
| ScalarValueDerive.ParseVariantAttr | juniper_codegen/src/derive_scalar_value.rs:82-111 | an attribute parses exactly when every entry does, keeping all entries in order, repeats included; a failure is some entry's error |
| ScalarValueDerive.FirstDuplicate | juniper_codegen/src/derive_scalar_value.rs:118 | finds an entry of the later attribute already collected, and finds none exactly when there is none |
| ScalarValueDerive.MergeEntries | juniper_codegen/src/derive_scalar_value.rs:117-125 | merging fails exactly when a later entry (same method, same resolver) was already collected; otherwise the lists are concatenated |
| ScalarValueDerive.CollectEntries | juniper_codegen/src/derive_scalar_value.rs:129-133 | a successful collection is what was held, followed by the entries of every attribute in order |
| ScalarValueDerive.AllEntriesFrom | juniper_codegen/src/derive_scalar_value.rs:129-133 | an entry is collected exactly when one of the attributes parses and lists it |
| ScalarValueDerive.CollectEntriesOk | juniper_codegen/src/derive_scalar_value.rs:116-133 | collection succeeds exactly when every attribute parses and no entry of an attribute is held already or listed by an earlier attribute. Repeats inside one attribute are allowed |
| ScalarValueDerive.VariantField | juniper_codegen/src/derive_scalar_value.rs:419-432 | a variant has a field exactly when it has one field, named or unnamed; otherwise the error names the variant |
| ScalarValueDerive.CollectVariants | juniper_codegen/src/derive_scalar_value.rs:33-35 | the variants are accepted exactly when each has one field and good attributes, and each is recorded with its own field and entries |
| ScalarValueDerive.AddEntriesAppends | juniper_codegen/src/derive_scalar_value.rs:35-42 | one variant's entries append, for each method, that variant's registrations to the method's list |
| ScalarValueDerive.BuildTableMatches | juniper_codegen/src/derive_scalar_value.rs:32-43 | the table lists for every method exactly the registrations of the reference, variant by variant in order; a method is a key exactly when some variant registers it |
| ScalarValueDerive.ProjectOwnEntries | juniper_codegen/src/derive_scalar_value.rs:208-213 | a variant's own arms project its value by its first resolver for the method, the default conversion without one, or nothing when not registered |
| ScalarValueDerive.ProjectOtherVariant | juniper_codegen/src/derive_scalar_value.rs:208-218 | arms for other variants do not match the value, so the projection falls through to `None` |
| ScalarValueDerive.ProjectionSemantics | juniper_codegen/src/derive_scalar_value.rs:172-222 | projecting a value of variant V with method m gives V's resolver applied to the payload, the default conversion when V has none, and `None` when V is not registered for m |
| ScalarValueDerive.RegisteredProjection | juniper_codegen/src/derive_scalar_value.rs:208-218 | the same, over the reference list of registrations |
| ScalarValueDerive.Construct | juniper_codegen/src/derive_scalar_value.rs:259-268 | `From<payload>` builds a value of that variant |
| ScalarValueDerive.Inverse | juniper_codegen/src/derive_scalar_value.rs:270-294 | `From<enum> for Option<payload>` answers exactly for values of that variant |
| ScalarValueDerive.ConversionRoundTrip | juniper_codegen/src/derive_scalar_value.rs:248-297 | unwrapping a constructed value with its own variant gives the payload back; with any other variant it gives `None` |
| ScalarValueDerive.DisplayArms | juniper_codegen/src/derive_scalar_value.rs:330-343 | `Display` has one arm per variant, in declaration order |
| ScalarValueDerive.DisplayBounds | juniper_codegen/src/derive_scalar_value.rs:304-323 | a `Display` bound is added for exactly the payload types the corrected walk finds generic |
| ScalarValueDerive.DisplayBoundsAsWritten | juniper_codegen/src/derive_scalar_value.rs:304-323 | as written, a bound is added for exactly the payload types the walk as written finds generic |
| ScalarValueDerive.BoundsMention | juniper_codegen/src/derive_scalar_value.rs:304-323 | with the corrected walk, the bounds are exactly the payload types in which some path is rooted at a type parameter |
| ScalarValueDerive.BoundsCorrected | juniper_codegen/src/derive_scalar_value.rs:304-323 | every bound the code as written adds, the corrected code adds too |
| ScalarValueDerive.BoxedPayloadBound | juniper_codegen/src/derive_scalar_value.rs:304-323 | for `enum E<T> { V(Box<T>) }` the code as written adds no bound, and the corrected code adds `Box<T>: Display` |
| ScalarValueDerive.Warnings | juniper_codegen/src/derive_scalar_value.rs:352-374 | a method gets a warning exactly when no variant registers it |
| ScalarValueDerive.WarningsInOrder | juniper_codegen/src/derive_scalar_value.rs:352-374 | warnings come out in the fixed method order |
| ScalarValueDerive.AllMethodsComplete | juniper_codegen/src/derive_scalar_value.rs:353-360 | the warning list covers all six methods, in the order `as_int`, `as_float`, `as_str`, `as_string`, `into_string`, `as_boolean` |
| ScalarValueDerive.Expand | juniper_codegen/src/derive_scalar_value.rs:24-52 | only enums are accepted, and the derive succeeds exactly when every variant does. The table has a method exactly when some variant registers it, with that method's registrations in declaration order. There is one display arm per variant. The `Display` bounds are those of the walk as written. There is one warning per unregistered method, in order, none twice |
| ScalarValueDerive.ExpandCorrected | juniper_codegen/src/derive_scalar_value.rs:304-323 | with the corrected walk, the output is the same except for the bounds. They include every bound added as written, and they cover exactly the payload types in which a path is rooted at a type parameter |
| ScalarValueDerive.BadVariantRejected | juniper_codegen/src/derive_scalar_value.rs:419-432 | a variant without exactly one field fails the derive, with or without attributes |
| AliasLimit.MessageRoundTrip | juniper/src/validation/rules/limit_number_of_aliases.rs:48-50 | the alias name can be read back out of the error message |
| AliasLimit.MessageName | juniper/src/validation/rules/limit_number_of_aliases.rs:48-50 | a message the reader accepts is exactly the message of the name it reads |
| AliasLimit.ErrorMessageInjective | juniper/src/validation/rules/limit_number_of_aliases.rs:48-50 | different aliases get different messages |
| AliasLimit.EnterOperationDefinition | juniper/src/validation/rules/limit_number_of_aliases.rs:24-30 | entering an operation resets the count, keeps the limit and reports nothing |
| AliasLimit.EnterField | juniper/src/validation/rules/limit_number_of_aliases.rs:32-45 | a plain field changes nothing; an aliased field bumps the count and is reported, once and at its start, exactly when the new count exceeds the limit |
| AliasLimit.RunMatchesReference | juniper/src/validation/rules/limit_number_of_aliases.rs:13-45 | from the factory state, the counter holds the aliases since the last operation (as 8 bits hold it), and the reports are the aliased fields whose held count exceeded the limit |
| AliasLimit.SaturatingIsExact | juniper/src/validation/rules/limit_number_of_aliases.rs:40-43 | a saturating counter reports exactly the aliases beyond the limit |
| AliasLimit.WrappingIsExactBelow256 | juniper/src/validation/rules/limit_number_of_aliases.rs:40-43 | a wrapping counter reports exactly the aliases beyond the limit while no operation reaches 256 aliases |
| AliasLimit.CorrectedReportsIntended | juniper/src/validation/rules/limit_number_of_aliases.rs:13-45 | the corrected rule reports every aliased field after the third in its operation, in document order, and nothing else |
| AliasLimit.AsWrittenReportsIntendedBelow256 | juniper/src/validation/rules/limit_number_of_aliases.rs:13-45 | the rule as written does the same for documents where no operation has 256 aliases |
| AliasLimit.OperationsIndependent | juniper/src/validation/rules/limit_number_of_aliases.rs:24-30 | the reports for a document are those for the part before an operation, followed by those the operation and its rest would get on their own |
| AliasLimit.FragmentDoesNotReset | juniper/src/validation/rules/limit_number_of_aliases.rs:20-45 | only an operation resets the count: aliases after a fragment definition add to the preceding operation's count |
| AliasLimit.FewAliasesPass | juniper/src/validation/rules/limit_number_of_aliases.rs:62-103 | a document with at most three aliased fields draws no report |
| AliasLimit.FiveAliasesReportLastTwo | juniper/src/validation/rules/limit_number_of_aliases.rs:105-129 | five aliased fields in one query: `myField4` and `myField5` are reported at (133, 5, 12) and (165, 6, 12) |
| AliasLimit.HeroQueryReportsLastTwo | juniper/src/validation/rules/limit_number_of_aliases.rs:131-165 | five aliased `hero` fields: `republicH3ro` and `republicH4ro` are reported at their starts in the document, (281, 11, 12) and (368, 14, 12) |
| AliasLimit.HeroTestExpectsOtherPositions | juniper/src/validation/rules/limit_number_of_aliases.rs:154-163 | on the `Hero` document the rule does not produce the errors the test lists at (268, 8, 12) and (342, 8, 12) |
| AliasLimit.WrapMissesAlias256 | juniper/src/validation/rules/limit_number_of_aliases.rs:40-43 | with the 8-bit counter the 256th alias of an operation is not reported, while the corrected rule reports it |

## Left out

- Token emission (`quote!`) and `syn` parsing of types, paths and literals. The model works on small datatypes for paths, types and attribute arguments, and on the `Code` datatype for generated bodies.
- Source spans and the wording of the derive macros' diagnostics. Errors are datatype values; only the alias rule's message text is modelled.
- Filtering `#[graphql]` attributes by name and reading doc comments (`filter_attrs`, `get_doc_comment`). The derives receive the argument lists of their `#[graphql]` attributes and the doc comment as inputs.
- The body of `try_merge_opt!`. Its behaviour is inferred from its use: a slot set on both sides is a duplicate, otherwise the slot comes from the side that set it.
- URL validation of `specified_by_url` and its normalisation by `url::Url` (for example, a bare host gains a trailing `/`). The model keeps the URL as the text written and emits that text.
- `scalar::AttrValue`, `scalar::Type` and the `impl_generics` where-clause building. The scalar option is kept as the literal given, and generics appear only where the `Display` bounds use them.
- `GraphQLValueAsync`. Its `resolve_async` forwards to `resolve`, which is modelled.
- `Inverse` stands for both `From<enum> for Option<payload>` and the by-reference `From<&enum> for Option<&payload>`. The two differ only in ownership.
- `from_input_value` and `from_str` are each generated twice, once in the `FromInputValue`/`ParseScalarValue` impls and once in `GraphQLScalar`, from the same expansion. The model generates each once.
- Compile-time conflicts between `From` impls of variants with the same payload type. The model does not check them.
- Array lengths and macro types inside type expressions. The type tree has no array-length expressions and no macro types.
- `ValidatorContext`, the document parser and the order of the tree walk. The alias rule is driven by an explicit sequence of visitor callbacks.
- AliasLimit.EnterField: a debug build panics on the 256th alias of an operation. The model gives the release-build wrap-around (`Wrapping`) and the corrected saturating counter, but not the panic.
- ScalarAttr.ParseFrom: its own contract states only that no slot is dropped. The full success condition and the resulting slots are in `ParseFromCharacterized`.

## Findings

| source | as written | input that shows it | evidently intended | confidence | as-written member | corrected member |
|---|---|---|---|---|---|---|
| juniper_codegen/src/derive_scalar_value.rs:466-479 | `visit_path` looks only at paths that are a single identifier. A path with generic arguments, such as `Box<T>`, is never descended into, and `T::Assoc` is not recognised. | `enum E<T> { V(Box<T>) }`: no `Box<T>: Display` bound is added, so the generated `Display` impl lacks the bound it needs (likewise `V(T::Assoc)`) | a payload type that mentions a type parameter at any depth gets a `Display` bound | not executed; high for the walk, medium for the impact | GenericCheck.BoxedParamMissed | GenericCheck.GenericIffMentions |
| juniper/src/validation/rules/limit_number_of_aliases.rs:154-163 | the test of the `Hero` query expects `republicH3ro` at (268, 8, 12) and `republicH4ro` at (342, 8, 12), both on line 8, the line of `republicHero` | the test's own `Hero` document, where `republicH3ro` starts at (281, 11, 12) and `republicH4ro` at (368, 14, 12); the rule reports `alias.start` | the test lists each alias at its start in the document, (281, 11, 12) and (368, 14, 12) | not executed; high, since the same counting gives exactly the positions the `MyQuery` test expects | AliasLimit.HeroTestExpectsOtherPositions | AliasLimit.HeroQueryReportsLastTwo |
| juniper/src/validation/rules/limit_number_of_aliases.rs:40 | `alias_count: u8` is bumped with `+= 1`, which wraps to 0 in a release build | an operation with 256 aliased fields: the 256th to 259th aliases are not reported | every aliased field after the third in its operation is reported | not executed; high | AliasLimit.WrapMissesAlias256 | AliasLimit.CorrectedReportsIntended |
