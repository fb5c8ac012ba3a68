/**
 The graph as the registered functions declare it: which functions compile, which agree, and which edges
 there are, said of names and signatures without the compiled definitions.
 */
module Declarations {
  import opened Wrappers
  import opened Schemas
  import opened Processors

  // ----- Reading a signature -----

  /** The name given to the decorator, unless none or an empty one was; then the function's own. */
  predicate IsCalled(p: Pending, name: string) {
    if p.name == None || p.name == Some("") then name == p.defaultName else p.name == Some(name)
  }

  predicate Mentions(a: Annotation, member: Member) {
    match a
    case Single(m) => member == m
    case Union(ms) => member in ms
  }

  /** Some parameter is annotated with a state model that stands for this one. */
  ghost predicate TakesState(schema: Schema, p: Pending, model: StateModel) {
    p.signature.Some? &&
    exists k, member ::
      && 0 <= k < |p.signature.value.parameters| && Mentions(p.signature.value.parameters[k], member)
      && Covers(schema, member, p.match_, model)
  }

  predicate Returns_(p: Pending, o: Outcome) {
    p.signature.Some? && o in p.signature.value.outcomes
  }

  /** The models a function may move to: returned as such by a reaction, inside Applied by a command function. */
  predicate LeadsTo(p: Pending, model: StateModel) {
    Returns_(p, if p.kind.REACTION? then Next(model) else Applied(Some(model)))
  }

  predicate MayDelete(p: Pending) {
    Returns_(p, Delete)
  }

  predicate TakesCommand(p: Pending, c: CommandModel) {
    p.signature.Some? && Single(CommandMember(c)) in p.signature.value.parameters
  }

  // ----- Functions that compile -----

  ghost predicate StatesOnly(a: Annotation) {
    forall member :: Mentions(a, member) ==> member.StateMember?
  }

  ghost predicate AnnotationOk(schema: Schema, a: Annotation, mode: MatchMode) {
    && a != Union([])
    && forall member :: Mentions(a, member) ==> Admissible(schema, member, mode)
  }

  ghost predicate Defines(schema: Schema, c: CommandModel, result: set<Outcome>) {
    exists d :: d in schema.commands.entries && schema.commands.entries[d].model == c
                && schema.commands.entries[d].result == result
  }

  /** The function returns its command's declared result plus optional Retry, and the result is usable. */
  ghost predicate ReturnsResult(schema: Schema, p: Pending, result: set<Outcome>) {
    && (forall o :: o in result <==> Returns_(p, o) && o != Retry)
    && (forall o :: o in result ==>
          || o == Ignored || o == Delete || (o.Rejected? && o.typed)
          || (o.Applied? && o.target.Some? && ContainsState(schema, o.target.value)))
  }

  ghost predicate ReactionSignature(schema: Schema, p: Pending, s: Signature) {
    && |s.parameters| == 1 && AnnotationOk(schema, s.parameters[0], p.match_)
    && s.outcomes != []
    && forall o :: o in s.outcomes ==>
         o == Unchanged || o == Retry || o == Delete || (o.Next? && ContainsState(schema, o.model))
  }

  ghost predicate CommandSignature(schema: Schema, p: Pending, s: Signature, c: CommandModel, a: Annotation) {
    && (s.parameters == [Single(CommandMember(c)), a] || s.parameters == [a, Single(CommandMember(c))])
    && StatesOnly(a) && AnnotationOk(schema, a, p.match_)
    && exists result :: Defines(schema, c, result) && ReturnsResult(schema, p, result)
  }

  ghost predicate InitializerSignature(schema: Schema, p: Pending, s: Signature, c: CommandModel) {
    && s.parameters == [Single(CommandMember(c))]
    && (exists result :: Defines(schema, c, result) && ReturnsResult(schema, p, result))
    && (exists t :: LeadsTo(p, t)) && !MayDelete(p)
  }

  ghost predicate Compiles(schema: Schema, p: Pending) {
    && (forall name :: IsCalled(p, name) ==> name != "" && '/' !in name)
    && p.signature.Some?
    && match p.kind
       case REACTION => ReactionSignature(schema, p, p.signature.value)
       case COMMAND => exists c, a :: CommandSignature(schema, p, p.signature.value, c, a)
       case INITIALIZER => exists c :: InitializerSignature(schema, p, p.signature.value, c)
  }

  // ----- Annotations -----

  lemma {:induction false} FlattenMentions(a: Annotation)
    ensures Flatten(a) == [] <==> a == Union([])
    ensures forall member :: Mentions(a, member) <==> member in Flatten(a)
    ensures IsState(a) <==> StatesOnly(a)
  {
    if IsState(a) {
      forall member | Mentions(a, member) ensures member.StateMember? {
        var i :| 0 <= i < |Flatten(a)| && Flatten(a)[i] == member;
      }
    } else {
      var i :| 0 <= i < |Flatten(a)| && !Flatten(a)[i].StateMember?;
      assert Mentions(a, Flatten(a)[i]);
    }
  }

  lemma {:induction false} ExpandDeclared(schema: Schema, a: Annotation, mode: MatchMode)
    ensures var r := Expand(schema, Flatten(a), mode);
            && (r.Some? <==> AnnotationOk(schema, a, mode))
            && (r.Some? ==> forall m: StateModel ::
                  m in r.value <==> exists member :: Mentions(a, member) && Covers(schema, member, mode, m))
  {
    FlattenMentions(a);
    ExpandExactly(schema, Flatten(a), mode);
    hide Expand, Flatten, Mentions, Covers, Admissible, IsState, StatesOnly;
    var members, r := Flatten(a), Expand(schema, Flatten(a), mode);
    if AnnotationOk(schema, a, mode) {
      forall i | 0 <= i < |members| ensures Admissible(schema, members[i], mode) {
        assert members[i] in members;
      }
    }
    if r.Some? {
      forall m: StateModel
        ensures m in r.value <==> exists member :: Mentions(a, member) && Covers(schema, member, mode, m)
      {
        if i :| 0 <= i < |members| && Covers(schema, members[i], mode, m) {
          assert members[i] in members;
        }
      }
    }
  }

  // ----- One function -----

  lemma {:induction false} CalledByName(p: Pending)
    ensures forall name :: IsCalled(p, name) <==> name == FunctionName(p)
  {}

  /** Sources, targets and the possible delete are those the signature declares. */
  ghost predicate AsDeclared(
    schema: Schema, p: Pending, sources: set<StateModel>, targets: set<StateModel>, canDelete: bool)
  {
    && (forall m: StateModel :: m in sources <==> !p.kind.INITIALIZER? && TakesState(schema, p, m))
    && (forall m: StateModel :: m in targets <==> LeadsTo(p, m))
    && (canDelete <==> MayDelete(p))
  }

  /** The reaction compiled from a registered function. */
  ghost predicate IsReactionOf(schema: Schema, p: Pending, r: Reaction) {
    && p.kind.REACTION? && IsCalled(p, r.name) && r.match_ == p.match_
    && AsDeclared(schema, p, r.sources, r.targets, r.canDelete)
    && (r.canRetry <==> Returns_(p, Retry)) && (r.canLeaveUnchanged <==> Returns_(p, Unchanged))
  }

  ghost predicate IsHandlerOf(schema: Schema, p: Pending, h: Handler) {
    && p.kind.COMMAND? && IsCalled(p, h.name) && h.match_ == p.match_
    && AsDeclared(schema, p, h.sources, h.targets, h.canDelete)
    && (h.canRetry <==> Returns_(p, Retry))
    && (forall c :: TakesCommand(p, c) <==> c == h.command.model)
    && exists d :: d in schema.commands.entries && schema.commands.entries[d] == h.command
  }

  ghost predicate IsInitializerOf(schema: Schema, p: Pending, n: Initializer) {
    && p.kind.INITIALIZER? && IsCalled(p, n.name)
    && AsDeclared(schema, p, {}, n.targets, false) && n.targets != {}
    && (n.canRetry <==> Returns_(p, Retry))
    && (forall c :: TakesCommand(p, c) <==> c == n.command.model)
    && exists d :: d in schema.commands.entries && schema.commands.entries[d] == n.command
  }

  lemma {:induction false} ReactionReturnsDeclared(schema: Schema, outcomes: seq<Outcome>)
    ensures var r := ReactionReturns(schema, outcomes);
            && (r.Some? <==>
                  outcomes != [] && forall o :: o in outcomes ==>
                    o == Unchanged || o == Retry || o == Delete || (o.Next? && ContainsState(schema, o.model)))
            && (r.Some? ==>
                  && (forall m: StateModel :: m in r.value.targets <==> Next(m) in outcomes)
                  && (r.value.canDelete <==> Delete in outcomes) && (r.value.canRetry <==> Retry in outcomes)
                  && (r.value.canLeaveUnchanged <==> Unchanged in outcomes))
  {
    hide ContainsState;
  }

  lemma {:induction false} OneParameter(schema: Schema, p: Pending, a: Annotation)
    requires p.signature.Some? && p.signature.value.parameters == [a]
    ensures forall m: StateModel ::
              TakesState(schema, p, m) <==> exists member :: Mentions(a, member) && Covers(schema, member, p.match_, m)
  {
    hide Mentions, Covers;
    assert p.signature.value.parameters[0] == a;
  }

  lemma {:induction false} ReactionDeclared(schema: Schema, p: Pending)
    requires p.kind.REACTION?
    ensures var r := CompileReaction(schema, p, FunctionName(p));
            && (r.Some? <==> p.signature.Some? && ReactionSignature(schema, p, p.signature.value))
            && (r.Some? ==> IsReactionOf(schema, p, r.value))
  {
    CalledByName(p);
    hide Expand, Flatten, ReactionReturns, ContainsState, AnnotationOk, TakesState, FunctionName, IsCalled;
    if p.signature.Some? && |p.signature.value.parameters| == 1 {
      var a := p.signature.value.parameters[0];
      assert p.signature.value.parameters == [a];
      ExpandDeclared(schema, a, p.match_);
      OneParameter(schema, p, a);
      ReactionReturnsDeclared(schema, p.signature.value.outcomes);
    }
  }

  /** A command function's return type against a result type. */
  lemma {:induction false} CommandReturnsDeclared(schema: Schema, p: Pending, result: set<Outcome>)
    requires p.signature.Some? && !p.kind.REACTION?
    ensures var r := CommandReturns(schema, result, ReturnSet(p));
            && (r.Some? <==> ReturnsResult(schema, p, result))
            && (r.Some? ==>
                  && (forall m: StateModel :: m in r.value.targets <==> LeadsTo(p, m))
                  && (r.value.canDelete <==> MayDelete(p)) && (r.value.canRetry <==> Returns_(p, Retry)))
  {
    hide ContainsState;
    var outcomes := p.signature.value.outcomes;
    assert forall o :: o in ReturnSet(p) <==> o in outcomes;
    if CommandReturns(schema, result, ReturnSet(p)).Some? {
      assert forall o :: o in result <==> o in ReturnSet(p) - {Retry};
      assert forall m: StateModel :: Applied(Some(m)) in result <==> Applied(Some(m)) in outcomes;
    }
    if ReturnsResult(schema, p, result) {
      assert ReturnSet(p) - {Retry} == result;
    }
  }

  lemma {:induction false} DefinedResult(schema: Schema, c: CommandModel)
    requires SchemaOk(schema)
    ensures var found := CommandFor(schema, c);
            && (found.Some? ==>
                  && found.value.model == c && Defines(schema, c, found.value.result)
                  && exists d :: d in schema.commands.entries && schema.commands.entries[d] == found.value)
            && (forall result :: Defines(schema, c, result) ==> found.Some? && found.value.result == result)
  {
    CommandForExactly(schema, c);
    hide SchemaOk, CommandFor;
  }

  lemma {:induction false} ResultDeclared(schema: Schema, p: Pending, c: CommandModel)
    requires SchemaOk(schema) && p.signature.Some? && !p.kind.REACTION?
    ensures var found := CommandFor(schema, c);
            && (found.Some? ==>
                  && found.value.model == c
                  && exists d :: d in schema.commands.entries && schema.commands.entries[d] == found.value)
            && ((exists result :: Defines(schema, c, result) && ReturnsResult(schema, p, result))
                <==> found.Some? && CommandReturns(schema, found.value.result, ReturnSet(p)).Some?)
  {
    DefinedResult(schema, c);
    hide SchemaOk, CommandFor, Defines, ReturnsResult, CommandReturns, ReturnSet;
    if CommandFor(schema, c).Some? {
      CommandReturnsDeclared(schema, p, CommandFor(schema, c).value.result);
    }
  }

  lemma {:induction false} InitializerDeclared(schema: Schema, p: Pending)
    requires SchemaOk(schema) && p.kind.INITIALIZER?
    ensures var r := CompileInitializer(schema, p, FunctionName(p));
            && (r.Some? <==> p.signature.Some? && exists c :: InitializerSignature(schema, p, p.signature.value, c))
            && (r.Some? ==> IsInitializerOf(schema, p, r.value))
  {
    CalledByName(p);
    hide IsCalled, Returns_;
    hide SchemaOk, CommandFor, CommandReturns, ReturnSet, Defines, ReturnsResult, LeadsTo, MayDelete, FunctionName;
    if p.signature.Some? && |p.signature.value.parameters| == 1 && IsCommand(p.signature.value.parameters[0]) {
      var c := p.signature.value.parameters[0].member.command;
      assert p.signature.value.parameters == [Single(CommandMember(c))];
      ResultDeclared(schema, p, c);
      var found := CommandFor(schema, c);
      if found.Some? {
        CommandReturnsDeclared(schema, p, found.value.result);
        var outcome := CommandReturns(schema, found.value.result, ReturnSet(p));
        if outcome.Some? {
          assert outcome.value.targets != {} <==> exists t :: t in outcome.value.targets;
        }
      }
      assert CompileInitializer(schema, p, FunctionName(p)).Some? <==>
               InitializerSignature(schema, p, p.signature.value, c);
      assert forall d :: TakesCommand(p, d) <==> d == c;
    }
    forall c | p.signature.Some? && InitializerSignature(schema, p, p.signature.value, c)
      ensures CompileInitializer(schema, p, FunctionName(p)).Some?
    {
      assert p.signature.value.parameters[0] == Single(CommandMember(c));
    }
  }

  // ----- Command functions -----

  ghost predicate Parts(s: Signature, c: CommandModel, a: Annotation) {
    && (s.parameters == [Single(CommandMember(c)), a] || s.parameters == [a, Single(CommandMember(c))])
    && StatesOnly(a)
  }

  lemma {:induction false} CommandIsNoState(c: CommandModel)
    ensures !IsState(Single(CommandMember(c))) && !StatesOnly(Single(CommandMember(c)))
  {
    assert Flatten(Single(CommandMember(c)))[0] == CommandMember(c);
    assert Mentions(Single(CommandMember(c)), CommandMember(c));
  }

  lemma {:induction false} PartsGiven(schema: Schema, s: Signature, c: CommandModel, a: Annotation)
    requires Parts(s, c, a)
    ensures var found := CommandFor(schema, c);
            CommandParameters(schema, s.parameters) == if found.Some? then Some((found.value, a)) else None
  {
    CommandIsNoState(c);
    FlattenMentions(a);
    hide CommandFor, IsState, StatesOnly, Flatten, Mentions;
    assert !IsCommand(a) by {
      if IsCommand(a) { CommandIsNoState(a.member.command); }
    }
  }

  lemma {:induction false} PartsFound(schema: Schema, s: Signature) returns (c: CommandModel, a: Annotation)
    requires CommandParameters(schema, s.parameters).Some?
    ensures Parts(s, c, a)
  {
    hide CommandFor, IsState, StatesOnly, Flatten, Mentions;
    FlattenMentions(s.parameters[0]);
    FlattenMentions(s.parameters[1]);
    if IsCommand(s.parameters[0]) && IsState(s.parameters[1]) {
      c, a := s.parameters[0].member.command, s.parameters[1];
    } else {
      c, a := s.parameters[1].member.command, s.parameters[0];
    }
    assert s.parameters == [s.parameters[0], s.parameters[1]];
  }

  lemma {:induction false} PartsTake(schema: Schema, p: Pending, c: CommandModel, a: Annotation)
    requires p.signature.Some? && Parts(p.signature.value, c, a)
    ensures forall d :: TakesCommand(p, d) <==> d == c
    ensures forall m: StateModel ::
              TakesState(schema, p, m) <==> exists member :: Mentions(a, member) && Covers(schema, member, p.match_, m)
  {
    var parameters := p.signature.value.parameters;
    forall d ensures TakesCommand(p, d) <==> d == c {
      CommandIsNoState(d);
      assert parameters[0] in parameters && parameters[1] in parameters;
    }
    forall m: StateModel
      ensures TakesState(schema, p, m) <==> exists member :: Mentions(a, member) && Covers(schema, member, p.match_, m)
    {
      CoversStates(schema, CommandMember(c), p.match_);
      hide Covers;
      var k := if parameters[0] == a then 0 else 1;
      assert parameters[k] == a;
    }
  }

  lemma {:induction false} CompiledFromParts(
    schema: Schema, p: Pending, c: CommandModel, a: Annotation, name: string)
    requires p.signature.Some? && Parts(p.signature.value, c, a)
    ensures var command, sources := CommandFor(schema, c), Expand(schema, Flatten(a), p.match_);
            var returned := if command.Some? then CommandReturns(schema, command.value.result, ReturnSet(p)) else None;
            CompileCommand(schema, p, name)
            == if sources.None? || returned.None? then None
               else Some(Handler(name, p.match_, command.value, sources.value, returned.value.targets,
                                 returned.value.canDelete, returned.value.canRetry))
  {
    hide CommandFor, CommandParameters, CommandReturns, ReturnSet, Expand, Flatten, Parts;
    PartsGiven(schema, p.signature.value, c, a);
  }

  lemma {:induction false} CommandSignatureFits(schema: Schema, p: Pending, c: CommandModel, a: Annotation)
    requires SchemaOk(schema) && p.kind.COMMAND? && p.signature.Some? && Parts(p.signature.value, c, a)
    ensures var r := CompileCommand(schema, p, FunctionName(p));
            && (r.Some? <==> CommandSignature(schema, p, p.signature.value, c, a))
            && (r.Some? ==> IsHandlerOf(schema, p, r.value) && r.value.command.model == c)
  {
    hide IsCalled, Returns_, CompileCommand, SchemaOk, CommandFor, CommandReturns, ReturnSet, Defines, ReturnsResult;
    hide LeadsTo, MayDelete, FunctionName, Expand, Flatten, AnnotationOk, StatesOnly, Mentions, Covers, TakesState;
    hide TakesCommand;
    CalledByName(p);
    CompiledFromParts(schema, p, c, a, FunctionName(p));
    PartsTake(schema, p, c, a);
    ExpandDeclared(schema, a, p.match_);
    ResultDeclared(schema, p, c);
    if CommandFor(schema, c).Some? {
      CommandReturnsDeclared(schema, p, CommandFor(schema, c).value.result);
    }
  }

  lemma {:induction false} CommandDeclared(schema: Schema, p: Pending)
    requires SchemaOk(schema) && p.kind.COMMAND?
    ensures var r := CompileCommand(schema, p, FunctionName(p));
            && (r.Some? <==> p.signature.Some? && exists c, a :: CommandSignature(schema, p, p.signature.value, c, a))
            && (r.Some? ==> IsHandlerOf(schema, p, r.value))
  {
    if p.signature.Some? {
      var s := p.signature.value;
      forall c, a | CommandSignature(schema, p, s, c, a) ensures CompileCommand(schema, p, FunctionName(p)).Some? {
        assert Parts(s, c, a);
        CommandSignatureFits(schema, p, c, a);
      }
      if CompileCommand(schema, p, FunctionName(p)).Some? {
        var c, a := PartsFound(schema, s);
        CommandSignatureFits(schema, p, c, a);
      }
      hide CompileCommand, CommandSignature, IsHandlerOf, SchemaOk, FunctionName;
    }
  }
}
