/** The `LimitNumberOfAliases` validation rule
    (juniper/src/validation/rules/limit_number_of_aliases.rs): within one
    operation the first three aliased fields are accepted and every further
    aliased field is reported, at the alias's start position.

    The rule is a visitor with an 8-bit counter. The model replays the
    visitor's callbacks as a sequence of events and folds the rule over
    them. `Arith` selects how the counter is bumped: `Wrapping` is the
    source as compiled in a release build (`u8 += 1` wraps at 256),
    `Saturating` is the corrected counter that never falls back below the
    limit. */
module AliasLimit {
  import opened Wrappers

  newtype u8 = x: int | 0 <= x < 256

  datatype SourcePosition = SourcePosition(index: nat, line: nat, col: nat)

  /** A field alias together with the position where the alias starts. */
  datatype Alias = Alias(name: string, start: SourcePosition)

  /** The visitor callbacks the rule sees, in document order. A fragment
    * definition is visited like any other node, but the rule does not
    * react to it. */
  datatype Event =
    | OperationStart
    | FragmentStart
    | FieldVisit(alias: Option<Alias>)

  datatype RuleError = RuleError(message: string, locations: seq<SourcePosition>)

  datatype Aliases = Aliases(aliasCount: u8, maxAllowed: u8)

  datatype Arith = Wrapping | Saturating

  datatype Outcome = Outcome(state: Aliases, errors: seq<RuleError>)

  /** The rule as created by the validator: no aliases seen, limit three. */
  function Factory(): Aliases {
    Aliases(0, 3)
  }

  // ---------------------------------------------------------------------
  // The error message and its inverse
  // ---------------------------------------------------------------------

  const MessageHead: string := "Illegal number of aliases, "
  const MessageTail: string := " is not allowed"

  function ErrorMessage(name: string): string {
    MessageHead + name + MessageTail
  }

  /** Reads the alias name back out of a message, if it has the rule's shape;
    * a message it accepts is exactly the message for the name it reads. */
  function MessageName(m: string): (r: Option<string>)
    ensures r.Some? ==> ErrorMessage(r.value) == m
  {
    if |m| >= |MessageHead| + |MessageTail|
       && m[..|MessageHead|] == MessageHead
       && m[|m| - |MessageTail|..] == MessageTail
    then
      var n := m[|MessageHead|..|m| - |MessageTail|];
      assert m == m[..|MessageHead|] + n + m[|m| - |MessageTail|..];
      Some(n)
    else None
  }

  lemma MessageRoundTrip(name: string)
    ensures MessageName(ErrorMessage(name)) == Some(name)
  {
    var m := ErrorMessage(name);
    assert m[..|MessageHead|] == MessageHead;
    assert m[|m| - |MessageTail|..] == MessageTail;
    assert m[|MessageHead|..|m| - |MessageTail|] == name;
  }

  /** Different aliases are reported with different messages. */
  lemma ErrorMessageInjective(a: string, b: string)
    ensures ErrorMessage(a) == ErrorMessage(b) ==> a == b
  {
    MessageRoundTrip(a);
    MessageRoundTrip(b);
  }

  // ---------------------------------------------------------------------
  // The visitor
  // ---------------------------------------------------------------------

  function Inc(a: Arith, c: u8): u8 {
    match a
    case Wrapping => ((c as int + 1) % 256) as u8
    case Saturating => if c == 255 then 255 else c + 1
  }

  function ReportFor(alias: Alias): RuleError {
    RuleError(ErrorMessage(alias.name), [alias.start])
  }

  /** Entering an operation definition resets the counter and reports nothing. */
  function EnterOperationDefinition(s: Aliases): (o: Outcome)
    ensures o.state.aliasCount == 0 && o.state.maxAllowed == s.maxAllowed
    ensures o.errors == []
  {
    Outcome(s.(aliasCount := 0), [])
  }

  /** Entering a field: an aliased field bumps the counter and is reported
    * exactly when the bumped counter exceeds the limit; a plain field
    * changes nothing. */
  function EnterField(a: Arith, s: Aliases, alias: Option<Alias>): (o: Outcome)
    ensures o.state.maxAllowed == s.maxAllowed
    ensures alias.None? ==> o == Outcome(s, [])
    ensures alias.Some? ==> o.state.aliasCount == Inc(a, s.aliasCount)
    ensures alias.Some? ==>
      (o.errors == [ReportFor(alias.value)] <==> Inc(a, s.aliasCount) > s.maxAllowed)
    ensures alias.Some? ==> (o.errors == [] <==> Inc(a, s.aliasCount) <= s.maxAllowed)
  {
    match alias
    case None => Outcome(s, [])
    case Some(al) =>
      var count := Inc(a, s.aliasCount);
      var errs := if count > s.maxAllowed then [ReportFor(al)] else [];
      Outcome(s.(aliasCount := count), errs)
  }

  function Visit(a: Arith, s: Aliases, e: Event): Outcome {
    match e
    case OperationStart => EnterOperationDefinition(s)
    case FragmentStart => Outcome(s, [])
    case FieldVisit(alias) => EnterField(a, s, alias)
  }

  predicate IsAliased(e: Event) {
    e.FieldVisit? && e.alias.Some?
  }

  /** Aliased fields among the events. */
  function AliasCount(events: seq<Event>): (n: nat)
    ensures n <= |events|
  {
    if events == [] then 0
    else (if IsAliased(events[0]) then 1 else 0)
         + AliasCount(events[1..])
  }

  /** The rule run over a whole document: the errors of each callback in
    * turn, and the final counter. */
  function Run(a: Arith, s: Aliases, events: seq<Event>): (o: Outcome)
    ensures o.state.maxAllowed == s.maxAllowed
    decreases |events|
  {
    if events == [] then Outcome(s, [])
    else
      var first := Visit(a, s, events[0]);
      var rest := Run(a, first.state, events[1..]);
      Outcome(rest.state, first.errors + rest.errors)
  }

  /** Running over `xs + [x]` is running over `xs` and then visiting `x`. */
  lemma {:induction false} RunSnoc(a: Arith, s: Aliases, xs: seq<Event>, x: Event)
    ensures Run(a, s, xs + [x]).state == Visit(a, Run(a, s, xs).state, x).state
    ensures Run(a, s, xs + [x]).errors
         == Run(a, s, xs).errors + Visit(a, Run(a, s, xs).state, x).errors
    decreases |xs|
  {
    if xs == [] {
      assert [x][1..] == [];
    } else {
      assert (xs + [x])[0] == xs[0];
      assert (xs + [x])[1..] == xs[1..] + [x];
      var first := Visit(a, s, xs[0]);
      RunSnoc(a, first.state, xs[1..], x);
    }
  }

  // ---------------------------------------------------------------------
  // Reference: what should be reported, read off the document directly
  // ---------------------------------------------------------------------

  function Init(events: seq<Event>): seq<Event>
    requires events != []
  {
    events[..|events| - 1]
  }

  /** Aliased fields since the last operation start (from the beginning of
    * the document when there is none), the last event included. */
  function AliasesSinceOperation(events: seq<Event>): nat
    decreases |events|
  {
    if events == [] then 0
    else
      var last := events[|events| - 1];
      if last.OperationStart? then 0
      else if IsAliased(last) then AliasesSinceOperation(Init(events)) + 1
      else AliasesSinceOperation(Init(events))
  }

  /** What a counter holds after `n` bumps from zero: exact (`None`), or an
    * 8-bit counter with the given arithmetic. */
  function Counted(c: Option<Arith>, n: nat): nat {
    match c
    case None => n
    case Some(Wrapping) => n % 256
    case Some(Saturating) => if n < 255 then n else 255
  }

  /** The reports a counter of kind `c` produces: one for each aliased field
    * whose running count (as held by `c`) exceeds the limit. */
  function Flagged(c: Option<Arith>, events: seq<Event>, limit: nat): seq<RuleError>
    decreases |events|
  {
    if events == [] then []
    else
      var last := events[|events| - 1];
      Flagged(c, Init(events), limit)
      + (if IsAliased(last) && Counted(c, AliasesSinceOperation(events)) > limit
         then [ReportFor(last.alias.value)] else [])
  }

  /** The intended reports: every aliased field beyond the limit within its
    * operation. */
  function Intended(events: seq<Event>, limit: nat): seq<RuleError> {
    Flagged(None, events, limit)
  }

  lemma IncCounted(a: Arith, n: nat)
    ensures Inc(a, Counted(Some(a), n) as u8) as int == Counted(Some(a), n + 1)
  {
  }

  /** The rule, started fresh, holds the count of aliases since the last
    * operation start (as its counter can hold it) and has reported exactly
    * the aliased fields whose held count exceeded the limit. */
  lemma {:induction false} RunMatchesReference(a: Arith, limit: u8, events: seq<Event>)
    ensures Run(a, Aliases(0, limit), events).state
         == Aliases(Counted(Some(a), AliasesSinceOperation(events)) as u8, limit)
    ensures Run(a, Aliases(0, limit), events).errors == Flagged(Some(a), events, limit as nat)
    decreases |events|
  {
    if events != [] {
      var init := Init(events);
      var last := events[|events| - 1];
      assert events == init + [last];
      RunMatchesReference(a, limit, init);
      RunSnoc(a, Aliases(0, limit), init, last);
      IncCounted(a, AliasesSinceOperation(init));
    }
  }

  /** A saturating counter reports exactly the intended aliases. */
  lemma {:induction false} SaturatingIsExact(events: seq<Event>, limit: nat)
    requires limit < 255
    ensures Flagged(Some(Saturating), events, limit) == Intended(events, limit)
    decreases |events|
  {
    if events != [] {
      SaturatingIsExact(Init(events), limit);
    }
  }

  /** No operation (so far, at any point of the document) has reached 256
    * aliases. */
  ghost predicate Below256(events: seq<Event>) {
    forall i :: 0 <= i <= |events| ==> AliasesSinceOperation(events[..i]) < 256
  }

  /** A wrapping counter agrees with the exact one while no operation has
    * 256 aliases. */
  lemma {:induction false} WrappingIsExactBelow256(events: seq<Event>, limit: nat)
    requires Below256(events)
    ensures Flagged(Some(Wrapping), events, limit) == Intended(events, limit)
    decreases |events|
  {
    if events != [] {
      var init := Init(events);
      forall i | 0 <= i <= |init|
        ensures AliasesSinceOperation(init[..i]) < 256
      {
        assert init[..i] == events[..i];
      }
      assert events[..|events|] == events;
      WrappingIsExactBelow256(init, limit);
    }
  }

  /** The corrected rule, started by the factory, reports exactly the
    * intended aliases. */
  lemma CorrectedReportsIntended(events: seq<Event>)
    ensures Run(Saturating, Factory(), events).errors == Intended(events, 3)
  {
    RunMatchesReference(Saturating, 3, events);
    SaturatingIsExact(events, 3);
  }

  /** The rule as written is correct as long as no operation reaches 256
    * aliases. */
  lemma AsWrittenReportsIntendedBelow256(events: seq<Event>)
    requires Below256(events)
    ensures Run(Wrapping, Factory(), events).errors == Intended(events, 3)
  {
    RunMatchesReference(Wrapping, 3, events);
    WrappingIsExactBelow256(events, 3);
  }

  // ---------------------------------------------------------------------
  // Operations are counted independently; fragments do not reset
  // ---------------------------------------------------------------------

  lemma {:induction false} RunConcat(a: Arith, s: Aliases, xs: seq<Event>, ys: seq<Event>)
    ensures Run(a, s, xs + ys).errors
         == Run(a, s, xs).errors + Run(a, Run(a, s, xs).state, ys).errors
    decreases |xs|
  {
    if xs == [] {
      assert xs + ys == ys;
    } else {
      assert (xs + ys)[0] == xs[0];
      assert (xs + ys)[1..] == xs[1..] + ys;
      RunConcat(a, Visit(a, s, xs[0]).state, xs[1..], ys);
    }
  }

  /** The reports for a later operation do not depend on what came before
    * it. */
  lemma OperationsIndependent(a: Arith, xs: seq<Event>, ys: seq<Event>)
    ensures Run(a, Factory(), xs + [OperationStart] + ys).errors
         == Run(a, Factory(), xs).errors + Run(a, Factory(), [OperationStart] + ys).errors
  {
    RunConcat(a, Factory(), xs, [OperationStart] + ys);
    assert xs + [OperationStart] + ys == xs + ([OperationStart] + ys);
    var mid := Run(a, Factory(), xs).state;
    assert ([OperationStart] + ys)[1..] == ys;
    assert Visit(a, mid, OperationStart).state == Factory();
  }

  predicate NoOperationStart(ys: seq<Event>) {
    forall i :: 0 <= i < |ys| ==> !ys[i].OperationStart?
  }

  /** A fragment definition does not reset the count: the aliases after it
    * add to those of the operation before it. */
  lemma FragmentDoesNotReset(xs: seq<Event>, ys: seq<Event>)
    requires NoOperationStart(ys)
    ensures AliasesSinceOperation(xs + [FragmentStart] + ys)
         == AliasesSinceOperation(xs) + AliasCount(ys)
  {
    assert Init(xs + [FragmentStart]) == xs;
    SinceExtends(xs + [FragmentStart], ys);
  }

  lemma {:induction false} SinceExtends(xs: seq<Event>, ys: seq<Event>)
    requires NoOperationStart(ys)
    ensures AliasesSinceOperation(xs + ys) == AliasesSinceOperation(xs) + AliasCount(ys)
    decreases |ys|
  {
    if ys == [] {
      assert xs + ys == xs;
    } else {
      var init := Init(ys);
      var last := ys[|ys| - 1];
      assert init + [last] == ys;
      assert Init(xs + ys) == xs + init;
      assert (xs + ys)[|xs + ys| - 1] == last;
      SinceExtends(xs, init);
      CountSnoc(init, last);
    }
  }

  // ---------------------------------------------------------------------
  // Few aliases pass
  // ---------------------------------------------------------------------

  /** A document with at most three aliased fields draws no report, however
    * its operations and fragments are arranged. */
  lemma FewAliasesPass(a: Arith, events: seq<Event>)
    requires AliasCount(events) <= 3
    ensures Run(a, Factory(), events).errors == []
  {
    forall k | 0 <= k <= |events|
      ensures AliasesSinceOperation(events[..k]) <= 3
    {
      SinceBelowCount(events[..k]);
      CountPrefix(events, k);
    }
    RunMatchesReference(a, 3, events);
    FlaggedEmpty(Some(a), events, 3);
  }

  lemma {:induction false} SinceBelowCount(events: seq<Event>)
    ensures AliasesSinceOperation(events) <= AliasCount(events)
    decreases |events|
  {
    if events != [] {
      SinceBelowCount(Init(events));
      CountSnoc(Init(events), events[|events| - 1]);
      assert Init(events) + [events[|events| - 1]] == events;
    }
  }

  lemma {:induction false} CountSnoc(xs: seq<Event>, x: Event)
    ensures AliasCount(xs + [x]) == AliasCount(xs) + (if IsAliased(x) then 1 else 0)
    decreases |xs|
  {
    if xs == [] {
      assert [x][1..] == [];
    } else {
      assert (xs + [x])[1..] == xs[1..] + [x];
      CountSnoc(xs[1..], x);
    }
  }

  lemma {:induction false} CountPrefix(events: seq<Event>, k: nat)
    requires k <= |events|
    ensures AliasCount(events[..k]) <= AliasCount(events)
    decreases |events|
  {
    if k == |events| {
      assert events[..k] == events;
    } else {
      var init := Init(events);
      assert init + [events[|events| - 1]] == events;
      CountSnoc(init, events[|events| - 1]);
      assert events[..k] == init[..k];
      CountPrefix(init, k);
    }
  }

  lemma {:induction false} FlaggedEmpty(c: Option<Arith>, events: seq<Event>, limit: nat)
    requires forall k :: 0 <= k <= |events| ==> AliasesSinceOperation(events[..k]) <= limit
    ensures Flagged(c, events, limit) == []
    decreases |events|
  {
    if events != [] {
      var init := Init(events);
      forall k | 0 <= k <= |init|
        ensures AliasesSinceOperation(init[..k]) <= limit
      {
        assert init[..k] == events[..k];
      }
      assert events[..|events|] == events;
      FlaggedEmpty(c, init, limit);
    }
  }

  // ---------------------------------------------------------------------
  // The 256th alias of an operation (release build)
  // ---------------------------------------------------------------------

  /** An operation opening with `n` copies of one aliased field. */
  function Burst(al: Alias, n: nat): seq<Event> {
    [OperationStart] + seq(n, _ => FieldVisit(Some(al)))
  }

  lemma {:induction false} BurstCount(al: Alias, n: nat)
    ensures AliasesSinceOperation(Burst(al, n)) == n
    decreases n
  {
    if n > 0 {
      assert Init(Burst(al, n)) == Burst(al, n - 1);
      BurstCount(al, n - 1);
    }
  }

  lemma BurstBelow256(al: Alias)
    ensures Below256(Burst(al, 255))
  {
    var b := Burst(al, 255);
    forall i | 0 <= i <= |b|
      ensures AliasesSinceOperation(b[..i]) < 256
    {
      if i > 0 {
        assert b[..i] == Burst(al, i - 1);
        BurstCount(al, i - 1);
      }
    }
  }

  /** With a wrapping counter the 256th alias of an operation brings the
    * counter back to zero, so it goes unreported, while the corrected rule
    * reports it. */
  lemma WrapMissesAlias256(al: Alias)
    ensures Run(Wrapping, Factory(), Burst(al, 256)).errors
         == Run(Wrapping, Factory(), Burst(al, 255)).errors
    ensures Run(Saturating, Factory(), Burst(al, 256)).errors
         == Run(Saturating, Factory(), Burst(al, 255)).errors + [ReportFor(al)]
    ensures Run(Wrapping, Factory(), Burst(al, 256)).errors
         != Run(Saturating, Factory(), Burst(al, 256)).errors
  {
    var b := Burst(al, 256);
    assert Init(b) == Burst(al, 255);
    BurstCount(al, 256);
    RunMatchesReference(Wrapping, 3, b);
    RunMatchesReference(Saturating, 3, b);
    RunMatchesReference(Wrapping, 3, Burst(al, 255));
    RunMatchesReference(Saturating, 3, Burst(al, 255));
    BurstBelow256(al);
    WrappingIsExactBelow256(Burst(al, 255), 3);
    SaturatingIsExact(Burst(al, 255), 3);
  }

  // ---------------------------------------------------------------------
  // Documents from the rule's own examples
  // ---------------------------------------------------------------------

  function Aliased(name: string, at: SourcePosition): Event {
    FieldVisit(Some(Alias(name, at)))
  }

  const Plain: Event := FieldVisit(None)

  lemma RunCons(a: Arith, s: Aliases, x: Event, xs: seq<Event>)
    ensures Run(a, s, [x] + xs).errors
         == Visit(a, s, x).errors + Run(a, Visit(a, s, x).state, xs).errors
  {
    assert ([x] + xs)[0] == x;
    assert ([x] + xs)[1..] == xs;
  }

  lemma OperationStep(a: Arith, s: Aliases, xs: seq<Event>)
    ensures Run(a, s, [OperationStart] + xs).errors == Run(a, s.(aliasCount := 0), xs).errors
  {
    RunCons(a, s, OperationStart, xs);
  }

  lemma PlainStep(a: Arith, s: Aliases, xs: seq<Event>)
    ensures Run(a, s, [Plain] + xs).errors == Run(a, s, xs).errors
  {
    RunCons(a, s, Plain, xs);
  }

  lemma AliasStep(a: Arith, s: Aliases, al: Alias, xs: seq<Event>)
    requires s.aliasCount < 255
    ensures Run(a, s, [FieldVisit(Some(al))] + xs).errors
         == (if s.aliasCount + 1 > s.maxAllowed then [ReportFor(al)] else [])
            + Run(a, s.(aliasCount := s.aliasCount + 1), xs).errors
  {
    RunCons(a, s, FieldVisit(Some(al)), xs);
  }

  /** The query `MyQuery` with five aliased fields `myField1` to
    * `myField5`; the first three positions are left open. */
  function MyQuery(p1: SourcePosition, p2: SourcePosition, p3: SourcePosition): seq<Event> {
    [OperationStart]
    + ([Aliased("myField1", p1)]
    + ([Aliased("myField2", p2)]
    + ([Aliased("myField3", p3)]
    + ([Aliased("myField4", SourcePosition(133, 5, 12))]
    + [Aliased("myField5", SourcePosition(165, 6, 12))]))))
  }

  /** Five aliased fields in one query: the fourth and fifth are reported,
    * in that order, at their own positions. */
  lemma FiveAliasesReportLastTwo(a: Arith, p1: SourcePosition, p2: SourcePosition, p3: SourcePosition)
    ensures Run(a, Factory(), MyQuery(p1, p2, p3)).errors
         == [RuleError(ErrorMessage("myField4"), [SourcePosition(133, 5, 12)]),
             RuleError(ErrorMessage("myField5"), [SourcePosition(165, 6, 12)])]
  {
    var t5 := [Aliased("myField5", SourcePosition(165, 6, 12))];
    var t4 := [Aliased("myField4", SourcePosition(133, 5, 12))] + t5;
    var t3 := [Aliased("myField3", p3)] + t4;
    var t2 := [Aliased("myField2", p2)] + t3;
    var t1 := [Aliased("myField1", p1)] + t2;
    assert t5 == t5 + [];
    AliasStep(a, Aliases(4, 3), Alias("myField5", SourcePosition(165, 6, 12)), []);
    AliasStep(a, Aliases(3, 3), Alias("myField4", SourcePosition(133, 5, 12)), t5);
    AliasStep(a, Aliases(2, 3), Alias("myField3", p3), t4);
    AliasStep(a, Aliases(1, 3), Alias("myField2", p2), t3);
    AliasStep(a, Aliases(0, 3), Alias("myField1", p1), t2);
    assert MyQuery(p1, p2, p3) == [OperationStart] + t1;
    OperationStep(a, Factory(), t1);
  }

  /** The query `Hero` with five aliased `hero` fields, each selecting the
    * unaliased field `name`, with every alias at its start in the
    * document: line 2, 5, 8, 11 and 14, column 12. */
  function HeroQuery(): seq<Event> {
    [OperationStart]
    + ([Aliased("empireHero", SourcePosition(36, 2, 12))] + ([Plain]
    + ([Aliased("jediHero", SourcePosition(117, 5, 12))] + ([Plain]
    + ([Aliased("republicHero", SourcePosition(194, 8, 12))] + ([Plain]
    + ([Aliased("republicH3ro", SourcePosition(281, 11, 12))] + ([Plain]
    + ([Aliased("republicH4ro", SourcePosition(368, 14, 12))] + [Plain])))))))))
  }

  /** The fourth and fifth `hero` aliases are reported, each at its own
    * start. */
  lemma HeroQueryReportsLastTwo(a: Arith)
    ensures Run(a, Factory(), HeroQuery()).errors
         == [RuleError(ErrorMessage("republicH3ro"), [SourcePosition(281, 11, 12)]),
             RuleError(ErrorMessage("republicH4ro"), [SourcePosition(368, 14, 12)])]
  {
    var t10 := [Plain];
    var t9 := [Aliased("republicH4ro", SourcePosition(368, 14, 12))] + t10;
    var t8 := [Plain] + t9;
    var t7 := [Aliased("republicH3ro", SourcePosition(281, 11, 12))] + t8;
    var t6 := [Plain] + t7;
    var t5 := [Aliased("republicHero", SourcePosition(194, 8, 12))] + t6;
    var t4 := [Plain] + t5;
    var t3 := [Aliased("jediHero", SourcePosition(117, 5, 12))] + t4;
    var t2 := [Plain] + t3;
    var t1 := [Aliased("empireHero", SourcePosition(36, 2, 12))] + t2;
    assert t10 == t10 + [];
    PlainStep(a, Aliases(5, 3), []);
    AliasStep(a, Aliases(4, 3), Alias("republicH4ro", SourcePosition(368, 14, 12)), t10);
    PlainStep(a, Aliases(4, 3), t9);
    AliasStep(a, Aliases(3, 3), Alias("republicH3ro", SourcePosition(281, 11, 12)), t8);
    PlainStep(a, Aliases(3, 3), t7);
    AliasStep(a, Aliases(2, 3), Alias("republicHero", SourcePosition(194, 8, 12)), t6);
    PlainStep(a, Aliases(2, 3), t5);
    AliasStep(a, Aliases(1, 3), Alias("jediHero", SourcePosition(117, 5, 12)), t4);
    PlainStep(a, Aliases(1, 3), t3);
    AliasStep(a, Aliases(0, 3), Alias("empireHero", SourcePosition(36, 2, 12)), t2);
    assert HeroQuery() == [OperationStart] + t1;
    OperationStep(a, Factory(), t1);
  }

  /** The errors the test of the `Hero` query lists. Both positions are on
    * line 8, the line of `republicHero`. */
  const HeroTestExpects: seq<RuleError> :=
    [RuleError(ErrorMessage("republicH3ro"), [SourcePosition(268, 8, 12)]),
     RuleError(ErrorMessage("republicH4ro"), [SourcePosition(342, 8, 12)])]

  /** The rule reports each alias at its own start, so on the `Hero`
    * document it cannot produce the errors the test lists, under either
    * arithmetic. */
  lemma HeroTestExpectsOtherPositions(a: Arith)
    ensures Run(a, Factory(), HeroQuery()).errors != HeroTestExpects
  {
    HeroQueryReportsLastTwo(a);
    assert HeroTestExpects[0].locations[0].line == 8;
  }
}
