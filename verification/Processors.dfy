/** Compiling the registered functions of one processor from their resolved signatures. */
module Processors {
  import opened Wrappers
  import opened Dicts
  import opened Schemas

  datatype MatchMode = EXACT | SUBCLASSES

  datatype ProducerKind = REACTION | COMMAND | INITIALIZER

  datatype Member = StateMember(state: StateModel) | CommandMember(command: CommandModel) | OtherMember

  /** A parameter annotation: one class, or a union; members are what is left after flattening. */
  datatype Annotation = Single(member: Member) | Union(members: seq<Member>)

  datatype Signature = Signature(parameters: seq<Annotation>, outcomes: seq<Outcome>)

  /** A registered function; the signature is absent when it cannot be resolved. */
  datatype Pending = Pending(
    kind: ProducerKind, name: Option<string>, defaultName: string, match_: MatchMode, signature: Option<Signature>)

  datatype Returns = Returns(targets: set<StateModel>, canDelete: bool, canRetry: bool, canLeaveUnchanged: bool)

  datatype Reaction = Reaction(
    name: string, match_: MatchMode, sources: set<StateModel>, targets: set<StateModel>,
    canDelete: bool, canRetry: bool, canLeaveUnchanged: bool)
  {
    predicate Transitioning() {
      targets != {} || canDelete
    }
  }

  datatype Handler = Handler(
    name: string, match_: MatchMode, command: CommandDefinition, sources: set<StateModel>,
    targets: set<StateModel>, canDelete: bool, canRetry: bool)

  datatype Initializer = Initializer(name: string, command: CommandDefinition, targets: set<StateModel>, canRetry: bool)

  // ----- Annotations -----

  function Flatten(annotation: Annotation): seq<Member> {
    match annotation
    case Single(member) => [member]
    case Union(members) => members
  }

  /** The registered models an annotated model stands for. */
  function Matched(schema: Schema, model: StateModel, mode: MatchMode): set<StateModel> {
    set d | d in schema.states.entries &&
            (if mode.EXACT? then schema.states.entries[d] == model
             else (schema.states.entries[d], model) in schema.subclasses)
      :: schema.states.entries[d]
  }

  predicate Expandable(schema: Schema, member: Member, mode: MatchMode) {
    && member.StateMember?
    && (mode.SUBCLASSES? ==> member.state in schema.bound)
    && Matched(schema, member.state, mode) != {}
  }

  function Sources(schema: Schema, members: seq<Member>, mode: MatchMode): set<StateModel> {
    set i, m | 0 <= i < |members| && members[i].StateMember? && m in Matched(schema, members[i].state, mode) :: m
  }

  function Expand(schema: Schema, members: seq<Member>, mode: MatchMode): Option<set<StateModel>> {
    if members == [] || exists i :: 0 <= i < |members| && !Expandable(schema, members[i], mode) then None
    else Some(Sources(schema, members, mode))
  }

  /** An annotated model stands for itself, or under SUBCLASSES for every registered model that derives from it. */
  predicate Covers(schema: Schema, member: Member, mode: MatchMode, model: StateModel) {
    && member.StateMember? && ContainsState(schema, model)
    && (if mode.EXACT? then model == member.state else (model, member.state) in schema.subclasses)
  }

  /** The member is a state model, bound to the enumeration if derived models count, and covers something. */
  ghost predicate Admissible(schema: Schema, member: Member, mode: MatchMode) {
    && member.StateMember?
    && (mode.SUBCLASSES? ==> member.state in schema.bound)
    && exists model: StateModel :: Covers(schema, member, mode, model)
  }

  lemma {:induction false} MatchedCovers(schema: Schema, member: Member, mode: MatchMode)
    ensures member.StateMember? ==>
              forall m: StateModel :: m in Matched(schema, member.state, mode) <==> Covers(schema, member, mode, m)
    ensures Expandable(schema, member, mode) <==> Admissible(schema, member, mode)
  {
    if member.StateMember? {
      forall m: StateModel ensures m in Matched(schema, member.state, mode) <==> Covers(schema, member, mode, m) {}
      hide Matched;
    }
  }

  /** An annotation is accepted exactly when all its members are admissible; it stands for what they cover. */
  lemma {:induction false} ExpandExactly(schema: Schema, members: seq<Member>, mode: MatchMode)
    ensures var r := Expand(schema, members, mode);
            && (r.Some? <==> members != [] && forall i :: 0 <= i < |members| ==> Admissible(schema, members[i], mode))
            && (r.Some? ==> forall m: StateModel ::
                  m in r.value <==> exists i :: 0 <= i < |members| && Covers(schema, members[i], mode, m))
  {
    forall i | 0 <= i < |members|
      ensures Expandable(schema, members[i], mode) <==> Admissible(schema, members[i], mode)
      ensures members[i].StateMember? ==> forall m: StateModel ::
                m in Matched(schema, members[i].state, mode) <==> Covers(schema, members[i], mode, m)
    {
      MatchedCovers(schema, members[i], mode);
    }
    hide Matched, Covers, Expandable, Admissible;
    forall i | 0 <= i < |members| && !members[i].StateMember?
      ensures forall m: StateModel :: !Covers(schema, members[i], mode, m)
    {
      CoversStates(schema, members[i], mode);
    }
  }

  lemma {:induction false} CoversStates(schema: Schema, member: Member, mode: MatchMode)
    requires !member.StateMember?
    ensures forall m: StateModel :: !Covers(schema, member, mode, m)
  {}

  lemma {:induction false} MatchedExactly(schema: Schema, model: StateModel)
    ensures Matched(schema, model, EXACT) == if ContainsState(schema, model) then {model} else {}
  {}

  lemma {:induction false} SourcesGrow(schema: Schema, members: seq<Member>, mode: MatchMode, n: nat)
    requires n < |members|
    ensures Sources(schema, members[..n + 1], mode)
         == Sources(schema, members[..n], mode)
            + if members[n].StateMember? then Matched(schema, members[n].state, mode) else {}
  {
    hide Matched;
    assert members[..n + 1] == members[..n] + [members[n]];
  }

  /** The source models of a state annotation, in one pass over its members. */
  method ExpandStateAnnotation(schema: Schema, members: seq<Member>, mode: MatchMode)
    returns (r: Option<set<StateModel>>)
    ensures r == Expand(schema, members, mode)
    ensures r.Some? <==> members != [] && forall i :: 0 <= i < |members| ==> Admissible(schema, members[i], mode)
    ensures r.Some? ==> forall m: StateModel ::
              m in r.value <==> exists i :: 0 <= i < |members| && Covers(schema, members[i], mode, m)
  {
    ExpandExactly(schema, members, mode);
    hide Admissible, Covers;
    if members == [] {
      return None;
    }
    var sources: set<StateModel> := {};
    for i := 0 to |members|
      invariant forall j :: 0 <= j < i ==> Expandable(schema, members[j], mode)
      invariant sources == Sources(schema, members[..i], mode)
    {
      var member := members[i];
      if !member.StateMember? {
        return None;
      }
      SourcesGrow(schema, members, mode, i);
      if mode.EXACT? {
        MatchedExactly(schema, member.state);
        if !ContainsState(schema, member.state) {
          return None;
        }
        sources := sources + {member.state};
      } else {
        if member.state !in schema.bound {
          return None;
        }
        var matched := Matched(schema, member.state, SUBCLASSES);
        if matched == {} {
          return None;
        }
        sources := sources + matched;
      }
    }
    assert members[..|members|] == members;
    return Some(sources);
  }

  // ----- Return types -----

  predicate ReactionOutcome(schema: Schema, o: Outcome) {
    o.Unchanged? || o.Retry? || o.Delete? || (o.Next? && ContainsState(schema, o.model))
  }

  function NextModels(outcomes: seq<Outcome>): set<StateModel> {
    set o | o in outcomes && o.Next? :: o.model
  }

  function ReactionReturns(schema: Schema, outcomes: seq<Outcome>): Option<Returns> {
    if outcomes == [] || exists o :: o in outcomes && !ReactionOutcome(schema, o) then None
    else Some(Returns(NextModels(outcomes), Delete in outcomes, Retry in outcomes, Unchanged in outcomes))
  }

  /** What a reaction may come to, in one pass over its return type. */
  method ReactionReturn(schema: Schema, outcomes: seq<Outcome>) returns (r: Option<Returns>)
    ensures r == ReactionReturns(schema, outcomes)
    ensures r.Some? <==>
              && outcomes != []
              && forall o :: o in outcomes ==>
                   o == Unchanged || o == Retry || o == Delete || (o.Next? && ContainsState(schema, o.model))
    ensures r.Some? ==>
              && (forall m: StateModel :: m in r.value.targets <==> Next(m) in outcomes)
              && (r.value.canDelete <==> Delete in outcomes) && (r.value.canRetry <==> Retry in outcomes)
              && (r.value.canLeaveUnchanged <==> Unchanged in outcomes)
  {
    hide ContainsState;
    var targets: set<StateModel> := {};
    var canDelete, canRetry, canLeaveUnchanged := false, false, false;
    for i := 0 to |outcomes|
      invariant forall j :: 0 <= j < i ==> ReactionOutcome(schema, outcomes[j])
      invariant targets == NextModels(outcomes[..i])
      invariant canDelete == (Delete in outcomes[..i]) && canRetry == (Retry in outcomes[..i])
      invariant canLeaveUnchanged == (Unchanged in outcomes[..i])
      invariant i > 0 ==> targets != {} || canDelete || canRetry || canLeaveUnchanged
    {
      var o := outcomes[i];
      assert outcomes[..i + 1] == outcomes[..i] + [o];
      assert o in outcomes;
      match o {
        case Unchanged => canLeaveUnchanged := true;
        case Retry => canRetry := true;
        case Delete => canDelete := true;
        case Next(model) =>
          if !ContainsState(schema, model) {
            return None;
          }
          targets := targets + {model};
        case _ => return None;
      }
    }
    assert outcomes[..|outcomes|] == outcomes;
    if !(targets != {} || canDelete || canRetry || canLeaveUnchanged) {
      return None;
    }
    return Some(Returns(targets, canDelete, canRetry, canLeaveUnchanged));
  }

  predicate ResultMember(schema: Schema, o: Outcome) {
    || o.Ignored? || o.Delete? || (o.Rejected? && o.typed)
    || (o.Applied? && o.target.Some? && ContainsState(schema, o.target.value))
  }

  function AppliedModels(outcomes: set<Outcome>): set<StateModel> {
    set o | o in outcomes && o.Applied? && o.target.Some? :: o.target.value
  }

  /** A command function returns its command's declared result type, plus optionally Retry. */
  function CommandReturns(schema: Schema, expected: set<Outcome>, actual: set<Outcome>): Option<Returns> {
    if actual - {Retry} != expected || exists o :: o in expected && !ResultMember(schema, o) then None
    else Some(Returns(AppliedModels(expected), Delete in expected, Retry in actual, false))
  }

  method CommandReturn(schema: Schema, expected: set<Outcome>, actual: set<Outcome>) returns (r: Option<Returns>)
    ensures r == CommandReturns(schema, expected, actual)
    ensures r.Some? <==>
              && (forall o :: o in expected <==> o in actual && o != Retry)
              && forall o :: o in expected ==>
                   || o == Ignored || o == Delete || (o.Rejected? && o.typed)
                   || (o.Applied? && o.target.Some? && ContainsState(schema, o.target.value))
    ensures r.Some? ==>
              && (forall m: StateModel :: m in r.value.targets <==> Applied(Some(m)) in expected)
              && (r.value.canDelete <==> Delete in expected) && (r.value.canRetry <==> Retry in actual)
              && !r.value.canLeaveUnchanged
  {
    hide ContainsState;
    if actual - {Retry} != expected {
      return None;
    }
    var targets: set<StateModel> := {};
    var canDelete := false;
    var todo := expected;
    while todo != {}
      invariant todo <= expected
      invariant forall o :: o in expected - todo ==> ResultMember(schema, o)
      invariant targets == AppliedModels(expected - todo)
      invariant canDelete == (Delete in expected - todo)
      decreases todo
    {
      var o :| o in todo;
      assert expected - (todo - {o}) == (expected - todo) + {o};
      if !ResultMember(schema, o) {
        return None;
      }
      if o.Applied? {
        targets := targets + {o.target.value};
      } else if o.Delete? {
        canDelete := true;
      }
      todo := todo - {o};
    }
    assert expected - todo == expected;
    return Some(Returns(targets, canDelete, Retry in actual, false));
  }

  // ----- Functions -----

  predicate IsCommand(annotation: Annotation) {
    annotation.Single? && annotation.member.CommandMember?
  }

  predicate IsState(annotation: Annotation) {
    forall i :: 0 <= i < |Flatten(annotation)| ==> Flatten(annotation)[i].StateMember?
  }

  /** One command and one state parameter, in either order. */
  function CommandParameters(schema: Schema, parameters: seq<Annotation>): Option<(CommandDefinition, Annotation)> {
    if |parameters| != 2 then None
    else
      var first := IsCommand(parameters[0]) && !IsCommand(parameters[1])
                   && IsState(parameters[1]) && !IsState(parameters[0]);
      var second := IsCommand(parameters[1]) && !IsCommand(parameters[0])
                    && IsState(parameters[0]) && !IsState(parameters[1]);
      if !first && !second then None
      else
        var (c, s) := if first then (parameters[0], parameters[1]) else (parameters[1], parameters[0]);
        var command := CommandFor(schema, c.member.command);
        if command.None? then None else Some((command.value, s))
  }

  function CompileReaction(schema: Schema, p: Pending, name: string): Option<Reaction> {
    if p.signature.None? || |p.signature.value.parameters| != 1 then None
    else
      var sources := Expand(schema, Flatten(p.signature.value.parameters[0]), p.match_);
      var outcome := ReactionReturns(schema, p.signature.value.outcomes);
      if sources.None? || outcome.None? then None
      else
        var r := outcome.value;
        Some(Reaction(name, p.match_, sources.value, r.targets, r.canDelete, r.canRetry, r.canLeaveUnchanged))
  }

  function ReturnSet(p: Pending): set<Outcome>
    requires p.signature.Some?
  {
    set o | o in p.signature.value.outcomes
  }

  function CompileCommand(schema: Schema, p: Pending, name: string): Option<Handler> {
    if p.signature.None? then None
    else
      var parameters := CommandParameters(schema, p.signature.value.parameters);
      if parameters.None? then None
      else
        var (command, state) := parameters.value;
        var sources := Expand(schema, Flatten(state), p.match_);
        var outcome := CommandReturns(schema, command.result, ReturnSet(p));
        if sources.None? || outcome.None? then None
        else
          var r := outcome.value;
          Some(Handler(name, p.match_, command, sources.value, r.targets, r.canDelete, r.canRetry))
  }

  /** An initializer has no source state, must create one on some path, and cannot delete. */
  function CompileInitializer(schema: Schema, p: Pending, name: string): Option<Initializer> {
    if p.signature.None? || |p.signature.value.parameters| != 1 || !IsCommand(p.signature.value.parameters[0]) then None
    else
      var command := CommandFor(schema, p.signature.value.parameters[0].member.command);
      if command.None? then None
      else
        var outcome := CommandReturns(schema, command.value.result, ReturnSet(p));
        if outcome.None? || outcome.value.targets == {} || outcome.value.canDelete then None
        else Some(Initializer(name, command.value, outcome.value.targets, outcome.value.canRetry))
  }

  // ----- A whole processor -----

  datatype Definitions = Definitions(
    reactions: seq<Reaction>, commands: Dict<CommandModel, Handler>, initializers: Dict<CommandModel, Initializer>,
    names: set<string>)

  const NOTHING: Definitions := Definitions([], RawDict([], map[]), RawDict([], map[]), {})

  function FunctionName(p: Pending): string {
    if p.name.Some? && p.name.value != "" then p.name.value else p.defaultName
  }

  predicate ValidName(name: string) {
    name != "" && '/' !in name
  }

  /** One more registered function on top of those compiled so far. */
  function Register(schema: Schema, defs: Definitions, p: Pending): Option<Definitions> {
    var name := FunctionName(p);
    if !ValidName(name) || name in defs.names then None
    else
      var named := defs.(names := defs.names + {name});
      match p.kind
      case REACTION =>
        var reaction := CompileReaction(schema, p, name);
        if reaction.None? then None else Some(named.(reactions := defs.reactions + [reaction.value]))
      case COMMAND =>
        var handler := CompileCommand(schema, p, name);
        if handler.None? then None
        else
          var model := handler.value.command.model;
          if model in defs.commands.entries || model in defs.initializers.entries then None
          else Some(named.(commands := Set(defs.commands, model, handler.value)))
      case INITIALIZER =>
        var initializer := CompileInitializer(schema, p, name);
        if initializer.None? then None
        else
          var model := initializer.value.command.model;
          if model in defs.commands.entries || model in defs.initializers.entries then None
          else Some(named.(initializers := Set(defs.initializers, model, initializer.value)))
  }

  function RegisterAll(schema: Schema, pending: seq<Pending>): Option<Definitions> {
    if pending == [] then Some(NOTHING)
    else
      var before := RegisterAll(schema, pending[..|pending| - 1]);
      if before.None? then None else Register(schema, before.value, pending[|pending| - 1])
  }

  /** No source state is left by two transitioning reactions. */
  ghost predicate OneTransitionPerState(reactions: seq<Reaction>) {
    forall i, j :: 0 <= i < j < |reactions| && reactions[i].Transitioning() && reactions[j].Transitioning() ==>
      reactions[i].sources !! reactions[j].sources
  }

  ghost function Finalized(schema: Schema, pending: seq<Pending>): Option<Definitions> {
    var defs := RegisterAll(schema, pending);
    if defs.None? || !OneTransitionPerState(defs.value.reactions) then None else defs
  }

  /** The sources some reaction before the i-th already transitions from. */
  ghost function OwnedBefore(reactions: seq<Reaction>, i: nat): set<StateModel>
    requires i <= |reactions|
  {
    set j, s | 0 <= j < i && reactions[j].Transitioning() && s in reactions[j].sources :: s
  }

  /** The single pass that notes an owner for each source and stops at the first second one. */
  method ValidateTransitioningReactions(reactions: seq<Reaction>) returns (ok: bool)
    ensures ok <==> OneTransitionPerState(reactions)
  {
    var owners: map<StateModel, string> := map[];
    for i := 0 to |reactions|
      invariant OneTransitionPerState(reactions[..i])
      invariant owners.Keys == OwnedBefore(reactions, i)
    {
      var reaction := reactions[i];
      if reaction.Transitioning() {
        var todo := reaction.sources;
        while todo != {}
          invariant todo <= reaction.sources
          invariant owners.Keys == OwnedBefore(reactions, i) + (reaction.sources - todo)
          invariant forall s :: s in reaction.sources - todo ==> s !in OwnedBefore(reactions, i)
          decreases todo
        {
          var source :| source in todo;
          if source in owners.Keys {
            assert source in OwnedBefore(reactions, i);
            var j :| 0 <= j < i && reactions[j].Transitioning() && source in reactions[j].sources;
            assert !(reactions[j].sources !! reactions[i].sources);
            return false;
          }
          owners := owners[source := reaction.name];
          todo := todo - {source};
        }
      }
      OneMoreReaction(reactions, i);
    }
    assert reactions[..|reactions|] == reactions;
    return true;
  }

  lemma {:induction false} OneMoreReaction(reactions: seq<Reaction>, i: nat)
    requires i < |reactions| && OneTransitionPerState(reactions[..i])
    requires reactions[i].Transitioning() ==> reactions[i].sources !! OwnedBefore(reactions, i)
    ensures OneTransitionPerState(reactions[..i + 1])
    ensures OwnedBefore(reactions, i + 1)
         == OwnedBefore(reactions, i) + if reactions[i].Transitioning() then reactions[i].sources else {}
  {
    forall j | 0 <= j < i && reactions[j].Transitioning() && reactions[i].Transitioning()
      ensures reactions[j].sources !! reactions[i].sources
    {
      assert forall s :: s in reactions[j].sources ==> s in OwnedBefore(reactions, i);
    }
  }
}
