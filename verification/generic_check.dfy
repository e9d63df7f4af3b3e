/** `IsVariantGeneric` of juniper_codegen/src/derive_scalar_value.rs: does
    the payload type of an enum variant mention one of the enum's type
    parameters? The visitor walks the type tree; at every path it looks
    whether the path is a bare identifier naming a type parameter.

    The walk as written only continues below a path when that path is a
    bare identifier, so the arguments of `Box<T>` or `Vec<T>` are never
    visited, and `T::Assoc` is not recognised (`IsVariantGenericAsWritten`);
    it is the walk `ScalarValueDerive.Expand` uses. The corrected walk
    (`IsVariantGeneric`) also counts a relative path rooted at a type
    parameter and descends into every path's generic arguments;
    `ScalarValueDerive.ExpandCorrected` uses it. */
module GenericCheck {
  import opened Wrappers
  import opened Syntax

  /** `id` names a type parameter among `params`; lifetime and const
      parameters never count. */
  predicate IsTypeParam(params: seq<GenericParam>, id: Ident) {
    TypeParam(id) in params
  }

  /** The bare-identifier check of `visit_path`. */
  predicate NamesParam(params: seq<GenericParam>, p: Path) {
    GetIdent(p).Some? && IsTypeParam(params, GetIdent(p).value)
  }

  // ---------------------------------------------------------------------
  // The walk as written: a path that is not a bare identifier is not
  // descended into.

  function IsVariantGenericAsWritten(params: seq<GenericParam>, t: Ty): bool
    decreases t, 1
  {
    match t
    case PathTy(q, p) =>
      (q.Some? && IsVariantGenericAsWritten(params, q.value)) || NamesParam(params, p)
    case RefTy(_, e) => IsVariantGenericAsWritten(params, e)
    case PtrTy(e) => IsVariantGenericAsWritten(params, e)
    case SliceTy(e) => IsVariantGenericAsWritten(params, e)
    case ArrayTy(e) => IsVariantGenericAsWritten(params, e)
    case ParenTy(e) => IsVariantGenericAsWritten(params, e)
    case TupleTy(es) => AnyAsWritten(params, es)
    case FnTy(ins, out) =>
      AnyAsWritten(params, ins) || (out.Some? && IsVariantGenericAsWritten(params, out.value))
    case TraitObjectTy(bounds) => AnyPathNamesParam(params, bounds)
    case NeverTy => false
    case InferTy => false
  }

  function AnyAsWritten(params: seq<GenericParam>, ts: seq<Ty>): bool
    decreases ts, 0
  {
    if ts == [] then false
    else IsVariantGenericAsWritten(params, ts[0]) || AnyAsWritten(params, ts[1..])
  }

  function AnyPathNamesParam(params: seq<GenericParam>, ps: seq<Path>): bool {
    if ps == [] then false else NamesParam(params, ps[0]) || AnyPathNamesParam(params, ps[1..])
  }

  // ---------------------------------------------------------------------
  // The corrected walk: a path rooted at a type parameter counts, and every
  // path is visited further, into the type arguments of each segment.

  function IsVariantGeneric(params: seq<GenericParam>, t: Ty): bool
    decreases t, 2
  {
    match t
    case PathTy(q, p) => (q.Some? && IsVariantGeneric(params, q.value)) || PathGeneric(params, p)
    case RefTy(_, e) => IsVariantGeneric(params, e)
    case PtrTy(e) => IsVariantGeneric(params, e)
    case SliceTy(e) => IsVariantGeneric(params, e)
    case ArrayTy(e) => IsVariantGeneric(params, e)
    case ParenTy(e) => IsVariantGeneric(params, e)
    case TupleTy(es) => AnyGeneric(params, es)
    case FnTy(ins, out) => AnyGeneric(params, ins) || (out.Some? && IsVariantGeneric(params, out.value))
    case TraitObjectTy(bounds) => AnyPathGeneric(params, bounds)
    case NeverTy => false
    case InferTy => false
  }

  /** The identifier a relative path starts from, when its first segment
      carries no arguments: `T` in `T`, in `T::Assoc` and in `T::Assoc<U>`.
      A type parameter can only be referred to this way. */
  function PathRoot(p: Path): (r: Option<Ident>)
    ensures GetIdent(p).Some? ==> r == GetIdent(p)
    ensures r.Some? ==> !p.leadingColon && |p.segments| > 0 && p.segments[0] == Segment(r.value, NoArgs)
  {
    if !p.leadingColon && |p.segments| > 0 && p.segments[0].args == NoArgs then Some(p.segments[0].ident)
    else None
  }

  function PathGeneric(params: seq<GenericParam>, p: Path): bool
    decreases p, 1
  {
    (PathRoot(p).Some? && IsTypeParam(params, PathRoot(p).value)) || AnySegmentGeneric(params, p.segments)
  }

  function AnyPathGeneric(params: seq<GenericParam>, ps: seq<Path>): bool
    decreases ps, 0
  {
    if ps == [] then false else PathGeneric(params, ps[0]) || AnyPathGeneric(params, ps[1..])
  }

  function AnySegmentGeneric(params: seq<GenericParam>, segs: seq<Segment>): bool
    decreases segs, 0
  {
    if segs == [] then false
    else
      (segs[0].args.Angled? && AnyArgGeneric(params, segs[0].args.args))
      || AnySegmentGeneric(params, segs[1..])
  }

  function AnyArgGeneric(params: seq<GenericParam>, args: seq<GenericArg>): bool
    decreases args, 0
  {
    if args == [] then false
    else
      assert args[0] in args;
      (match args[0]
       case TypeArg(t) => assert t < args[0]; IsVariantGeneric(params, t)
       case LifetimeArg(_) => false)
      || AnyArgGeneric(params, args[1..])
  }

  function AnyGeneric(params: seq<GenericParam>, ts: seq<Ty>): bool
    decreases ts, 0
  {
    if ts == [] then false else IsVariantGeneric(params, ts[0]) || AnyGeneric(params, ts[1..])
  }

  // ---------------------------------------------------------------------
  // Reference: the set of identifiers that occur anywhere in the type as
  // the root of a relative path (a bare identifier is one such path).

  function Mentions(t: Ty): set<Ident>
    decreases t, 2
  {
    match t
    case PathTy(q, p) => (if q.Some? then Mentions(q.value) else {}) + PathIdents(p)
    case RefTy(_, e) => Mentions(e)
    case PtrTy(e) => Mentions(e)
    case SliceTy(e) => Mentions(e)
    case ArrayTy(e) => Mentions(e)
    case ParenTy(e) => Mentions(e)
    case TupleTy(es) => SeqIdents(es)
    case FnTy(ins, out) => SeqIdents(ins) + (if out.Some? then Mentions(out.value) else {})
    case TraitObjectTy(bounds) => PathsIdents(bounds)
    case NeverTy => {}
    case InferTy => {}
  }

  function PathIdents(p: Path): set<Ident>
    decreases p, 1
  {
    (if PathRoot(p).Some? then {PathRoot(p).value} else {}) + SegmentsIdents(p.segments)
  }

  function PathsIdents(ps: seq<Path>): set<Ident>
    decreases ps, 0
  {
    if ps == [] then {} else PathIdents(ps[0]) + PathsIdents(ps[1..])
  }

  function SegmentsIdents(segs: seq<Segment>): set<Ident>
    decreases segs, 0
  {
    if segs == [] then {}
    else (if segs[0].args.Angled? then ArgsIdents(segs[0].args.args) else {}) + SegmentsIdents(segs[1..])
  }

  function ArgsIdents(args: seq<GenericArg>): set<Ident>
    decreases args, 0
  {
    if args == [] then {}
    else
      assert args[0] in args;
      (match args[0]
       case TypeArg(t) => assert t < args[0]; Mentions(t)
       case LifetimeArg(_) => {})
      + ArgsIdents(args[1..])
  }

  function SeqIdents(ts: seq<Ty>): set<Ident>
    decreases ts, 0
  {
    if ts == [] then {} else Mentions(ts[0]) + SeqIdents(ts[1..])
  }

  /** The type parameters among `params`. */
  function TypeParamIdents(params: seq<GenericParam>): (r: set<Ident>)
    ensures forall id :: id in r <==> IsTypeParam(params, id)
  {
    set i | 0 <= i < |params| && params[i].TypeParam? :: params[i].ident
  }

  /** The corrected walk is true exactly when some path in the type, at any
      depth, is rooted at a type parameter. */
  lemma {:induction false} GenericIffMentions(params: seq<GenericParam>, t: Ty)
    ensures IsVariantGeneric(params, t) <==> Mentions(t) * TypeParamIdents(params) != {}
    decreases t, 2
  {
    match t
    case PathTy(q, p) =>
      if q.Some? { GenericIffMentions(params, q.value); }
      PathIffMentions(params, p);
    case RefTy(_, e) => GenericIffMentions(params, e);
    case PtrTy(e) => GenericIffMentions(params, e);
    case SliceTy(e) => GenericIffMentions(params, e);
    case ArrayTy(e) => GenericIffMentions(params, e);
    case ParenTy(e) => GenericIffMentions(params, e);
    case TupleTy(es) => SeqIffMentions(params, es);
    case FnTy(ins, out) =>
      SeqIffMentions(params, ins);
      if out.Some? { GenericIffMentions(params, out.value); }
    case TraitObjectTy(bounds) => PathsIffMentions(params, bounds);
    case NeverTy =>
    case InferTy =>
  }

  lemma {:induction false} PathIffMentions(params: seq<GenericParam>, p: Path)
    ensures PathGeneric(params, p) <==> PathIdents(p) * TypeParamIdents(params) != {}
    decreases p, 1
  {
    SegmentsIffMentions(params, p.segments);
    if PathRoot(p).Some? {
      var id := PathRoot(p).value;
      if IsTypeParam(params, id) {
        assert id in PathIdents(p) * TypeParamIdents(params);
      }
    }
  }

  lemma {:induction false} PathsIffMentions(params: seq<GenericParam>, ps: seq<Path>)
    ensures AnyPathGeneric(params, ps) <==> PathsIdents(ps) * TypeParamIdents(params) != {}
    decreases ps, 0
  {
    if ps != [] {
      PathIffMentions(params, ps[0]);
      PathsIffMentions(params, ps[1..]);
    }
  }

  lemma {:induction false} SegmentsIffMentions(params: seq<GenericParam>, segs: seq<Segment>)
    ensures AnySegmentGeneric(params, segs) <==> SegmentsIdents(segs) * TypeParamIdents(params) != {}
    decreases segs, 0
  {
    if segs != [] {
      if segs[0].args.Angled? { ArgsIffMentions(params, segs[0].args.args); }
      SegmentsIffMentions(params, segs[1..]);
    }
  }

  lemma {:induction false} ArgsIffMentions(params: seq<GenericParam>, args: seq<GenericArg>)
    ensures AnyArgGeneric(params, args) <==> ArgsIdents(args) * TypeParamIdents(params) != {}
    decreases args, 0
  {
    if args != [] {
      ArgsIffMentions(params, args[1..]);
      assert args[0] in args;
      match args[0]
      case TypeArg(t) => assert t < args[0]; GenericIffMentions(params, t);
      case LifetimeArg(_) =>
    }
  }

  lemma {:induction false} SeqIffMentions(params: seq<GenericParam>, ts: seq<Ty>)
    ensures AnyGeneric(params, ts) <==> SeqIdents(ts) * TypeParamIdents(params) != {}
    decreases ts, 0
  {
    if ts != [] {
      GenericIffMentions(params, ts[0]);
      SeqIffMentions(params, ts[1..]);
    }
  }

  /** Whatever the walk as written reports, the corrected walk reports too. */
  lemma {:induction false} AsWrittenImpliesGeneric(params: seq<GenericParam>, t: Ty)
    ensures IsVariantGenericAsWritten(params, t) ==> IsVariantGeneric(params, t)
    decreases t, 1
  {
    match t
    case PathTy(q, p) => if q.Some? { AsWrittenImpliesGeneric(params, q.value); }
    case RefTy(_, e) => AsWrittenImpliesGeneric(params, e);
    case PtrTy(e) => AsWrittenImpliesGeneric(params, e);
    case SliceTy(e) => AsWrittenImpliesGeneric(params, e);
    case ArrayTy(e) => AsWrittenImpliesGeneric(params, e);
    case ParenTy(e) => AsWrittenImpliesGeneric(params, e);
    case TupleTy(es) => AnyAsWrittenImpliesGeneric(params, es);
    case FnTy(ins, out) =>
      AnyAsWrittenImpliesGeneric(params, ins);
      if out.Some? { AsWrittenImpliesGeneric(params, out.value); }
    case TraitObjectTy(bounds) => AnyPathImpliesGeneric(params, bounds);
    case NeverTy =>
    case InferTy =>
  }

  lemma {:induction false} AnyAsWrittenImpliesGeneric(params: seq<GenericParam>, ts: seq<Ty>)
    ensures AnyAsWritten(params, ts) ==> AnyGeneric(params, ts)
    decreases ts, 0
  {
    if ts != [] {
      AsWrittenImpliesGeneric(params, ts[0]);
      AnyAsWrittenImpliesGeneric(params, ts[1..]);
    }
  }

  lemma {:induction false} AnyPathImpliesGeneric(params: seq<GenericParam>, ps: seq<Path>)
    ensures AnyPathNamesParam(params, ps) ==> AnyPathGeneric(params, ps)
    decreases ps
  {
    if ps != [] {
      AnyPathImpliesGeneric(params, ps[1..]);
    }
  }

  /** `T` applied to a one-type-argument path, as in `Box<T>`. */
  function Applied(name: Ident, arg: Ty): Ty {
    PathTy(None, Path(false, [Segment(name, Angled([TypeArg(arg)]))]))
  }

  function ParamTy(id: Ident): Ty {
    PathTy(None, IdentPath(id))
  }

  /** The walk as written misses the parameter inside `Box<T>`: for
      `enum E<T> { V(Box<T>) }` it reports the payload as not generic, so
      no `Box<T>: Display` bound is added, though `T` occurs in it. */
  lemma BoxedParamMissed()
    ensures var params := [TypeParam("T")];
      && !IsVariantGenericAsWritten(params, Applied("Box", ParamTy("T")))
      && IsVariantGeneric(params, Applied("Box", ParamTy("T")))
      && "T" in Mentions(Applied("Box", ParamTy("T")))
  {
    var params := [TypeParam("T")];
    var p := Path(false, [Segment("Box", Angled([TypeArg(ParamTy("T"))]))]);
    assert GetIdent(p).None?;
    assert NamesParam(params, IdentPath("T"));
    assert AnyArgGeneric(params, [TypeArg(ParamTy("T"))]);
    assert AnySegmentGeneric(params, p.segments);
    assert ArgsIdents([TypeArg(ParamTy("T"))]) == {"T"};
  }

  /** The walk as written does not recognise an associated type of a type
      parameter: for `enum E<T: Trait> { V(T::Assoc) }` it reports the
      payload as not generic, though the payload depends on `T`. */
  lemma AssocParamMissed()
    ensures var params := [TypeParam("T")];
      var assoc := PathTy(None, Path(false, [Segment("T", NoArgs), Segment("Assoc", NoArgs)]));
      && !IsVariantGenericAsWritten(params, assoc)
      && IsVariantGeneric(params, assoc)
      && "T" in Mentions(assoc)
  {
    var p := Path(false, [Segment("T", NoArgs), Segment("Assoc", NoArgs)]);
    assert GetIdent(p).None?;
    assert PathRoot(p) == Some("T");
  }

  /** Lifetime and const parameters never make a type generic, in either
      walk: adding them changes nothing. */
  lemma {:induction false} OnlyTypeParamsCount(params: seq<GenericParam>, extra: seq<GenericParam>, t: Ty)
    requires forall i :: 0 <= i < |extra| ==> !extra[i].TypeParam?
    ensures IsVariantGeneric(params + extra, t) == IsVariantGeneric(params, t)
    ensures IsVariantGenericAsWritten(params + extra, t) == IsVariantGenericAsWritten(params, t)
  {
    GenericIffMentions(params + extra, t);
    GenericIffMentions(params, t);
    assert TypeParamIdents(params + extra) == TypeParamIdents(params) by {
      forall id ensures IsTypeParam(params + extra, id) <==> IsTypeParam(params, id) {
        if IsTypeParam(params + extra, id) {
          var i :| 0 <= i < |params + extra| && (params + extra)[i] == TypeParam(id);
        }
      }
    }
    SameTypeParamsAsWritten(params, params + extra, t);
  }

  /** The walk as written depends on `params` only through its type
      parameters. */
  lemma {:induction false} SameTypeParamsAsWritten(p1: seq<GenericParam>, p2: seq<GenericParam>, t: Ty)
    requires forall id :: IsTypeParam(p1, id) <==> IsTypeParam(p2, id)
    ensures IsVariantGenericAsWritten(p1, t) == IsVariantGenericAsWritten(p2, t)
    decreases t, 1
  {
    match t
    case PathTy(q, p) => if q.Some? { SameTypeParamsAsWritten(p1, p2, q.value); }
    case RefTy(_, e) => SameTypeParamsAsWritten(p1, p2, e);
    case PtrTy(e) => SameTypeParamsAsWritten(p1, p2, e);
    case SliceTy(e) => SameTypeParamsAsWritten(p1, p2, e);
    case ArrayTy(e) => SameTypeParamsAsWritten(p1, p2, e);
    case ParenTy(e) => SameTypeParamsAsWritten(p1, p2, e);
    case TupleTy(es) => SameTypeParamsAnyAsWritten(p1, p2, es);
    case FnTy(ins, out) =>
      SameTypeParamsAnyAsWritten(p1, p2, ins);
      if out.Some? { SameTypeParamsAsWritten(p1, p2, out.value); }
    case TraitObjectTy(bounds) => SameTypeParamsPaths(p1, p2, bounds);
    case NeverTy =>
    case InferTy =>
  }

  lemma {:induction false} SameTypeParamsAnyAsWritten(p1: seq<GenericParam>, p2: seq<GenericParam>, ts: seq<Ty>)
    requires forall id :: IsTypeParam(p1, id) <==> IsTypeParam(p2, id)
    ensures AnyAsWritten(p1, ts) == AnyAsWritten(p2, ts)
    decreases ts, 0
  {
    if ts != [] {
      SameTypeParamsAsWritten(p1, p2, ts[0]);
      SameTypeParamsAnyAsWritten(p1, p2, ts[1..]);
    }
  }

  lemma {:induction false} SameTypeParamsPaths(p1: seq<GenericParam>, p2: seq<GenericParam>, ps: seq<Path>)
    requires forall id :: IsTypeParam(p1, id) <==> IsTypeParam(p2, id)
    ensures AnyPathNamesParam(p1, ps) == AnyPathNamesParam(p2, ps)
    decreases ps
  {
    if ps != [] {
      SameTypeParamsPaths(p1, p2, ps[1..]);
    }
  }
}
