/** The registry of a state machine: which models stand for which members of its enumerations. */
module Schemas {
  import opened Wrappers
  import opened Sorting
  import opened Dicts

  type StateModel = nat
  type CommandModel = nat
  type Discriminator = nat

  datatype DefinitionError = DefinitionError

  /** One member of a declared return or result type. */
  datatype Outcome =
    | Unchanged
    | Retry
    | Delete
    | Ignored
    | Next(model: StateModel)
    | Applied(target: Option<StateModel>)
    | Rejected(typed: bool)
    | Unsupported

  /** What is known of a model class offered to a schema: whether it meets the contract, and its literal member. */
  datatype Offer = Offer(model: nat, usable: bool, discriminator: Option<Discriminator>, result: Option<set<Outcome>>)

  datatype CommandDefinition = CommandDefinition(
    model: CommandModel, discriminator: Discriminator, result: set<Outcome>)

  /** A compiled schema; `id` tells apart schema objects, `subclasses` is the subclass relation on model classes. */
  datatype Schema = Schema(
    id: nat,
    states: Dict<Discriminator, StateModel>,
    commands: Dict<Discriminator, CommandDefinition>,
    subclasses: set<(StateModel, StateModel)>,
    bound: set<StateModel>)

  // ----- Compiling the registries -----

  function Discriminators(offers: seq<Offer>): seq<Discriminator> {
    seq(|offers|, i requires 0 <= i < |offers| =>
      if offers[i].discriminator.Some? then offers[i].discriminator.value else 0)
  }

  function Models(offers: seq<Offer>): seq<nat> {
    seq(|offers|, i requires 0 <= i < |offers| => offers[i].model)
  }

  predicate Usable(offer: Offer, members: set<Discriminator>) {
    offer.usable && offer.discriminator.Some? && offer.discriminator.value in members
  }

  /** The offers name distinct models that stand for distinct members, one for every member. */
  ghost predicate Registrable(offers: seq<Offer>, members: set<Discriminator>) {
    && (forall i :: 0 <= i < |offers| ==> Usable(offers[i], members))
    && NoDup(Models(offers))
    && NoDup(Discriminators(offers))
    && (forall d :: d in members ==> d in Discriminators(offers))
  }

  ghost predicate StatesFrom(mapping: Dict<Discriminator, StateModel>, offers: seq<Offer>) {
    && mapping.order == Discriminators(offers)
    && (forall i :: 0 <= i < |offers| ==>
          mapping.order[i] in mapping.entries && mapping.entries[mapping.order[i]] == offers[i].model)
  }

  lemma {:induction false} PrefixNotRegistrable(offers: seq<Offer>, members: set<Discriminator>, i: nat)
    requires i < |offers|
    requires !Usable(offers[i], members)
          || offers[i].model in Models(offers[..i])
          || Discriminators(offers)[i] in Discriminators(offers[..i])
    ensures !Registrable(offers, members)
  {
    if offers[i].model in Models(offers[..i]) {
      var j :| 0 <= j < i && Models(offers[..i])[j] == offers[i].model;
      assert Models(offers)[j] == Models(offers)[i];
    }
    if Discriminators(offers)[i] in Discriminators(offers[..i]) {
      var j :| 0 <= j < i && Discriminators(offers[..i])[j] == Discriminators(offers)[i];
      assert Discriminators(offers)[j] == Discriminators(offers)[i];
    }
  }

  /** What a full pass has established, but for members that no model stands for. */
  ghost predicate Distinct(offers: seq<Offer>, members: set<Discriminator>) {
    && (forall i :: 0 <= i < |offers| ==> Usable(offers[i], members))
    && NoDup(Models(offers)) && NoDup(Discriminators(offers))
  }

  lemma {:induction false} DistinctGrows(offers: seq<Offer>, members: set<Discriminator>, i: nat)
    requires i < |offers| && Distinct(offers[..i], members) && Usable(offers[i], members)
    requires offers[i].model !in Models(offers[..i])
    requires offers[i].discriminator.value !in Discriminators(offers[..i])
    ensures Distinct(offers[..i + 1], members)
    ensures Models(offers[..i + 1]) == Models(offers[..i]) + [offers[i].model]
    ensures Discriminators(offers[..i + 1]) == Discriminators(offers[..i]) + [offers[i].discriminator.value]
  {
    hide Usable;
    assert offers[..i + 1] == offers[..i] + [offers[i]];
    assert offers[i].discriminator.Some? by { UsableHas(offers[i], members); }
    assert Models(offers[..i + 1]) == Models(offers[..i]) + [offers[i].model];
    assert Discriminators(offers[..i + 1]) == Discriminators(offers[..i]) + [offers[i].discriminator.value];
  }

  lemma {:induction false} UsableHas(offer: Offer, members: set<Discriminator>)
    requires Usable(offer, members)
    ensures offer.discriminator.Some? && offer.discriminator.value in members
  {}

  lemma {:induction false} NothingDistinct(members: set<Discriminator>)
    ensures Distinct([], members)
  {}

  lemma {:induction false} DistinctIsRegistrable(offers: seq<Offer>, members: set<Discriminator>)
    requires Distinct(offers, members)
    ensures Registrable(offers, members) <==> forall d :: d in members ==> d in Discriminators(offers)
  {}

  lemma {:induction false} StateAdded(mapping: Dict<Discriminator, StateModel>, offers: seq<Offer>, i: nat)
    requires i < |offers| && StatesFrom(mapping, offers[..i])
    requires offers[i].discriminator.Some? && offers[i].discriminator.value !in mapping.entries
    ensures StatesFrom(Set(mapping, offers[i].discriminator.value, offers[i].model), offers[..i + 1])
  {
    var d := offers[i].discriminator.value;
    assert offers[..i + 1] == offers[..i] + [offers[i]];
    assert Discriminators(offers[..i + 1]) == Discriminators(offers[..i]) + [d];
    assert forall j :: 0 <= j < i ==> mapping.order[j] in mapping.entries;
  }

  lemma {:induction false} StateKeys(mapping: Dict<Discriminator, StateModel>, offers: seq<Offer>)
    requires StatesFrom(mapping, offers)
    ensures forall d :: d in mapping.entries <==> d in Discriminators(offers)
    ensures mapping.order == [] <==> offers == []
  {}

  /** Each model is registered under its literal member, in the order given, or the schema is refused. */
  method CompileStates(offers: seq<Offer>, members: set<Discriminator>)
    returns (r: Result<Dict<Discriminator, StateModel>, DefinitionError>)
    ensures r.Success? <==> Registrable(offers, members) && offers != []
    ensures r.Success? ==> StatesFrom(r.value, offers)
  {
    hide StatesFrom, Registrable, Distinct, Set, Discriminators;
    var mapping: Dict<Discriminator, StateModel> := RawDict([], map[]);
    var seen: seq<StateModel> := [];
    NothingDistinct(members);
    NoStates();
    for i := 0 to |offers|
      invariant seen == Models(offers[..i]) && Distinct(offers[..i], members)
      invariant StatesFrom(mapping, offers[..i])
    {
      var offer := offers[i];
      StateKeys(mapping, offers[..i]);
      if offer.model in seen || !Usable(offer, members) || offer.discriminator.value in mapping.entries {
        DiscriminatorOf(offers, i);
        PrefixNotRegistrable(offers, members, i);
        return Failure(DefinitionError);
      }
      DistinctGrows(offers, members, i);
      StateAdded(mapping, offers, i);
      mapping := Set(mapping, offer.discriminator.value, offer.model);
      seen := seen + [offer.model];
    }
    assert offers[..|offers|] == offers;
    StateKeys(mapping, offers);
    DistinctIsRegistrable(offers, members);
    if exists d :: d in members && d !in mapping.entries {
      return Failure(DefinitionError);
    }
    if mapping.order == [] {
      return Failure(DefinitionError);
    }
    return Success(mapping);
  }

  lemma {:induction false} NoStates()
    ensures StatesFrom(RawDict([], map[]), [])
  {}

  lemma {:induction false} DiscriminatorOf(offers: seq<Offer>, i: nat)
    requires i < |offers|
    ensures |Discriminators(offers)| == |offers|
    ensures offers[i].discriminator.Some? ==> Discriminators(offers)[i] == offers[i].discriminator.value
  {}

  ghost predicate CommandsFrom(mapping: Dict<Discriminator, CommandDefinition>, offers: seq<Offer>) {
    && mapping.order == Discriminators(offers)
    && (forall i :: 0 <= i < |offers| ==>
          && offers[i].discriminator.Some? && offers[i].result.Some?
          && mapping.order[i] in mapping.entries
          && mapping.entries[mapping.order[i]]
             == CommandDefinition(offers[i].model, offers[i].discriminator.value, offers[i].result.value))
  }

  ghost predicate Resolved(offers: seq<Offer>) {
    forall i :: 0 <= i < |offers| ==> offers[i].result.Some?
  }

  lemma {:induction false} CommandAdded(mapping: Dict<Discriminator, CommandDefinition>, offers: seq<Offer>, i: nat)
    requires i < |offers| && CommandsFrom(mapping, offers[..i]) && offers[i].result.Some?
    requires offers[i].discriminator.Some? && offers[i].discriminator.value !in mapping.entries
    ensures var d := offers[i].discriminator.value;
            CommandsFrom(Set(mapping, d, CommandDefinition(offers[i].model, d, offers[i].result.value)),
                         offers[..i + 1])
  {
    var d := offers[i].discriminator.value;
    assert offers[..i + 1] == offers[..i] + [offers[i]];
    assert Discriminators(offers[..i + 1]) == Discriminators(offers[..i]) + [d];
    assert forall j :: 0 <= j < i ==> mapping.order[j] in mapping.entries;
  }

  lemma {:induction false} CommandKeys(mapping: Dict<Discriminator, CommandDefinition>, offers: seq<Offer>)
    requires CommandsFrom(mapping, offers)
    ensures forall d :: d in mapping.entries <==> d in Discriminators(offers)
    ensures Resolved(offers)
  {}

  lemma {:induction false} NoneRegistered()
    ensures CommandsFrom(RawDict([], map[]), [])
  {}

  lemma {:induction false} UnresolvedStays(offers: seq<Offer>, i: nat)
    requires i < |offers| && offers[i].result.None?
    ensures !Resolved(offers)
  {}

  /** Commands are registered like states; a schema without a command enumeration takes none. */
  method CompileCommands(offers: seq<Offer>, members: Option<set<Discriminator>>)
    returns (r: Result<Dict<Discriminator, CommandDefinition>, DefinitionError>)
    ensures r.Success? <==>
              if members.None? then offers == [] else Registrable(offers, members.value) && Resolved(offers)
    ensures r.Success? ==> CommandsFrom(r.value, offers)
  {
    hide CommandsFrom, Registrable, Distinct, Set, Discriminators, Resolved;
    NoneRegistered();
    if members.None? {
      if offers != [] {
        return Failure(DefinitionError);
      }
      return Success(RawDict([], map[]));
    }
    var mapping: Dict<Discriminator, CommandDefinition> := RawDict([], map[]);
    var seen: seq<CommandModel> := [];
    NothingDistinct(members.value);
    for i := 0 to |offers|
      invariant seen == Models(offers[..i]) && Distinct(offers[..i], members.value)
      invariant CommandsFrom(mapping, offers[..i])
    {
      var offer := offers[i];
      CommandKeys(mapping, offers[..i]);
      if offer.model in seen || !Usable(offer, members.value) || offer.discriminator.value in mapping.entries {
        DiscriminatorOf(offers, i);
        PrefixNotRegistrable(offers, members.value, i);
        return Failure(DefinitionError);
      }
      if offer.result.None? {
        UnresolvedStays(offers, i);
        return Failure(DefinitionError);
      }
      DistinctGrows(offers, members.value, i);
      CommandAdded(mapping, offers, i);
      mapping := Set(mapping, offer.discriminator.value,
                     CommandDefinition(offer.model, offer.discriminator.value, offer.result.value));
      seen := seen + [offer.model];
    }
    assert offers[..|offers|] == offers;
    CommandKeys(mapping, offers);
    DistinctIsRegistrable(offers, members.value);
    if exists d :: d in members.value && d !in mapping.entries {
      return Failure(DefinitionError);
    }
    return Success(mapping);
  }

  // ----- Looking up -----

  predicate ContainsState(schema: Schema, model: StateModel) {
    exists d :: d in schema.states.entries && schema.states.entries[d] == model
  }

  function FindCommand(definitions: seq<CommandDefinition>, model: CommandModel): Option<CommandDefinition> {
    if definitions == [] then None
    else if definitions[0].model == model then Some(definitions[0])
    else FindCommand(definitions[1..], model)
  }

  function CommandValues(schema: Schema): seq<CommandDefinition> {
    var commands := schema.commands;
    seq(|commands.order|, i requires 0 <= i < |commands.order| => commands.entries[commands.order[i]])
  }

  function CommandFor(schema: Schema, model: CommandModel): Option<CommandDefinition> {
    FindCommand(CommandValues(schema), model)
  }

  /** The registries map members to models one to one. */
  ghost predicate SchemaOk(schema: Schema) {
    && (forall c, d :: c in schema.states.entries && d in schema.states.entries && c != d ==>
          schema.states.entries[c] != schema.states.entries[d])
    && (forall c, d :: c in schema.commands.entries && d in schema.commands.entries && c != d ==>
          schema.commands.entries[c].model != schema.commands.entries[d].model)
  }

  lemma {:induction false} RegisteredAt(states: Dict<Discriminator, StateModel>, offers: seq<Offer>, d: Discriminator)
    returns (i: nat)
    requires StatesFrom(states, offers) && d in states.entries
    ensures i < |offers| && Discriminators(offers)[i] == d && Models(offers)[i] == states.entries[d]
  {
    i :| 0 <= i < |states.order| && states.order[i] == d;
  }

  /** Compiling gives a bijection between the members of the enumeration and the registered models. */
  lemma {:induction false} CompiledIsBijective(
    states: Dict<Discriminator, StateModel>, offers: seq<Offer>, members: set<Discriminator>)
    requires Registrable(offers, members) && StatesFrom(states, offers)
    ensures forall d :: d in states.entries <==> d in members
    ensures forall c, d :: c in states.entries && d in states.entries && c != d ==>
              states.entries[c] != states.entries[d]
    ensures forall m: nat :: m in Models(offers) <==> exists d :: d in states.entries && states.entries[d] == m
  {
    hide StatesFrom;
    forall d ensures d in states.entries <==> d in members {
      RegisteredKeys(states, offers, members, d);
    }
    forall c, d | c in states.entries && d in states.entries && c != d
      ensures states.entries[c] != states.entries[d]
    {
      var i := RegisteredAt(states, offers, c);
      var j := RegisteredAt(states, offers, d);
      assert Models(offers)[i] != Models(offers)[j];
    }
    forall m: nat ensures m in Models(offers) <==> exists d :: d in states.entries && states.entries[d] == m {
      RegisteredModels(states, offers, m);
    }
  }

  lemma {:induction false} RegisteredKeys(
    states: Dict<Discriminator, StateModel>, offers: seq<Offer>, members: set<Discriminator>, d: Discriminator)
    requires Registrable(offers, members) && StatesFrom(states, offers)
    ensures d in states.entries <==> d in members
  {
    if d in states.entries {
      var i := RegisteredAt(states, offers, d);
      assert Usable(offers[i], members);
    }
    if d in members {
      assert d in states.order;
    }
  }

  lemma {:induction false} RegisteredModels(
    states: Dict<Discriminator, StateModel>, offers: seq<Offer>, m: nat)
    requires StatesFrom(states, offers)
    ensures m in Models(offers) <==> exists d :: d in states.entries && states.entries[d] == m
  {
    if m in Models(offers) {
      var i :| 0 <= i < |offers| && Models(offers)[i] == m;
      assert states.order[i] in states.entries;
    }
    if d :| d in states.entries && states.entries[d] == m {
      var i := RegisteredAt(states, offers, d);
    }
  }

  lemma {:induction false} CommandsDistinct(
    commands: Dict<Discriminator, CommandDefinition>, offers: seq<Offer>, members: set<Discriminator>)
    requires Registrable(offers, members) && CommandsFrom(commands, offers)
    ensures forall c, d :: c in commands.entries && d in commands.entries && c != d ==>
              commands.entries[c].model != commands.entries[d].model
  {
    forall c, d | c in commands.entries && d in commands.entries && c != d
      ensures commands.entries[c].model != commands.entries[d].model
    {
      var i :| 0 <= i < |commands.order| && commands.order[i] == c;
      var j :| 0 <= j < |commands.order| && commands.order[j] == d;
      assert Models(offers)[i] != Models(offers)[j];
    }
  }

  /** A command definition is found exactly under its own model. */
  lemma {:induction false} FindCommandFinds(definitions: seq<CommandDefinition>, model: CommandModel)
    ensures var found := FindCommand(definitions, model);
            && (found.Some? ==> found.value in definitions && found.value.model == model)
            && (found.None? ==> forall c :: c in definitions ==> c.model != model)
  {
    if definitions != [] && definitions[0].model != model {
      FindCommandFinds(definitions[1..], model);
      assert forall c :: c in definitions ==> c == definitions[0] || c in definitions[1..];
    }
  }

  /** Under one-to-one registries the definition found for a model is the one registered for it, if any. */
  lemma {:induction false} CommandForExactly(schema: Schema, model: CommandModel)
    requires SchemaOk(schema)
    ensures var found := CommandFor(schema, model);
            && (found.None? <==>
                  forall d :: d in schema.commands.entries ==> schema.commands.entries[d].model != model)
            && (forall d :: d in schema.commands.entries && schema.commands.entries[d].model == model ==>
                  found == Some(schema.commands.entries[d]))
  {
    var values, commands := CommandValues(schema), schema.commands;
    FindCommandFinds(values, model);
    forall d | d in commands.entries && commands.entries[d].model == model
      ensures CommandFor(schema, model) == Some(commands.entries[d])
    {
      assert d in commands.order;
      var i :| 0 <= i < |commands.order| && commands.order[i] == d;
      assert values[i] in values;
      var j :| 0 <= j < |values| && values[j] == CommandFor(schema, model).value;
      assert commands.order[j] in commands.entries;
    }
    if CommandFor(schema, model).Some? {
      var j :| 0 <= j < |values| && values[j] == CommandFor(schema, model).value;
      assert commands.order[j] in commands.entries;
    }
  }

  /** What a compiled schema answers about command models is what was offered. */
  ghost predicate CommandsAsOffered(schema: Schema, offers: seq<Offer>) {
    && (forall i :: 0 <= i < |offers| ==>
          && offers[i].discriminator.Some? && offers[i].result.Some?
          && CommandFor(schema, offers[i].model)
             == Some(CommandDefinition(offers[i].model, offers[i].discriminator.value, offers[i].result.value)))
    && (forall model: nat :: model !in Models(offers) ==> CommandFor(schema, model).None?)
  }

  lemma {:induction false} OfferedCommands(schema: Schema, offers: seq<Offer>)
    requires SchemaOk(schema) && CommandsFrom(schema.commands, offers)
    ensures CommandsAsOffered(schema, offers)
  {
    hide CommandFor, SchemaOk;
    var commands := schema.commands;
    forall i | 0 <= i < |offers|
      ensures CommandFor(schema, offers[i].model)
           == Some(CommandDefinition(offers[i].model, offers[i].discriminator.value, offers[i].result.value))
    {
      CommandForExactly(schema, offers[i].model);
      assert commands.order[i] in commands.entries;
    }
    forall model: nat | model !in Models(offers) ensures CommandFor(schema, model).None? {
      CommandForExactly(schema, model);
      forall d | d in commands.entries ensures commands.entries[d].model != model {
        assert d in commands.order;
        var i :| 0 <= i < |commands.order| && commands.order[i] == d;
        assert Models(offers)[i] in Models(offers);
      }
    }
  }

  /** Every offered model meets the contract, and each member of the enumeration is the literal of exactly one. */
  ghost predicate OneForEach(offers: seq<Offer>, members: set<Discriminator>) {
    && (forall i :: 0 <= i < |offers| ==> offers[i].usable)
    && (forall i :: 0 <= i < |offers| ==>
          exists d :: d in members && offers[i].discriminator == Some(d))
    && (forall d :: d in members ==> exists i :: 0 <= i < |offers| && offers[i].discriminator == Some(d))
    && (forall i, j :: 0 <= i < j < |offers| ==>
          offers[i].discriminator != offers[j].discriminator && offers[i].model != offers[j].model)
  }

  lemma {:induction false} RegistrableExactly(offers: seq<Offer>, members: set<Discriminator>)
    ensures Registrable(offers, members) <==> OneForEach(offers, members)
  {
    var ds, ms := Discriminators(offers), Models(offers);
    assert |ds| == |ms| == |offers|;
    if Registrable(offers, members) {
      forall i, j | 0 <= i < j < |offers|
        ensures offers[i].discriminator != offers[j].discriminator && offers[i].model != offers[j].model
      {
        assert ds[i] != ds[j] && ms[i] != ms[j];
        assert Usable(offers[i], members) && Usable(offers[j], members);
      }
      forall d | d in members ensures exists i :: 0 <= i < |offers| && offers[i].discriminator == Some(d) {
        var i :| 0 <= i < |ds| && ds[i] == d;
        assert Usable(offers[i], members);
      }
      assert forall i :: 0 <= i < |offers| ==> Usable(offers[i], members);
    }
    if OneForEach(offers, members) {
      assert forall i :: 0 <= i < |offers| ==> offers[i].discriminator == Some(ds[i]) && ms[i] == offers[i].model;
      forall d | d in members ensures d in ds {
        var i :| 0 <= i < |offers| && offers[i].discriminator == Some(d);
        assert ds[i] == d;
      }
    }
  }

  /** A schema exists only with both registries compiled, and then maps members to models one to one. */
  method CompileSchema(
    id: nat, states: seq<Offer>, stateMembers: set<Discriminator>,
    commands: seq<Offer>, commandMembers: Option<set<Discriminator>>,
    subclasses: set<(StateModel, StateModel)>, bound: set<StateModel>)
    returns (r: Option<Schema>)
    ensures r.Some? <==>
              && OneForEach(states, stateMembers) && states != []
              && (if commandMembers.None? then commands == []
                  else OneForEach(commands, commandMembers.value)
                       && forall i :: 0 <= i < |commands| ==> commands[i].result.Some?)
    ensures r.Some? ==>
              && SchemaOk(r.value)
              && (forall m: nat :: ContainsState(r.value, m) <==> m in Models(states))
              && (forall d :: d in r.value.states.entries <==> d in stateMembers)
              && (forall i :: 0 <= i < |states| ==>
                    states[i].discriminator.Some? && states[i].discriminator.value in r.value.states.entries
                    && r.value.states.entries[states[i].discriminator.value] == states[i].model)
              && CommandsAsOffered(r.value, commands)
              && (forall d :: d in r.value.commands.entries <==> commandMembers.Some? && d in commandMembers.value)
              && r.value.id == id && r.value.subclasses == subclasses && r.value.bound == bound
  {
    hide Registrable, CommandsFrom, StatesFrom, CommandsAsOffered, OneForEach;
    RegistrableExactly(states, stateMembers);
    if commandMembers.Some? {
      RegistrableExactly(commands, commandMembers.value);
    }
    var s := CompileStates(states, stateMembers);
    if s.Failure? {
      return None;
    }
    var c := CompileCommands(commands, commandMembers);
    if c.Failure? {
      return None;
    }
    CompiledIsBijective(s.value, states, stateMembers);
    if commandMembers.Some? {
      CommandsDistinct(c.value, commands, commandMembers.value);
    } else {
      NoCommands(c.value, commands);
    }
    var schema := Schema(id, s.value, c.value, subclasses, bound);
    OfferedCommands(schema, commands);
    OfferedStates(s.value, states, stateMembers);
    CommandMembers(c.value, commands, if commandMembers.Some? then commandMembers.value else {});
    return Some(schema);
  }

  lemma {:induction false} OfferedStates(
    states: Dict<Discriminator, StateModel>, offers: seq<Offer>, members: set<Discriminator>)
    requires Registrable(offers, members) && StatesFrom(states, offers)
    ensures forall i :: 0 <= i < |offers| ==>
              offers[i].discriminator.Some? && offers[i].discriminator.value in states.entries
              && states.entries[offers[i].discriminator.value] == offers[i].model
  {
    forall i | 0 <= i < |offers|
      ensures offers[i].discriminator.Some? && offers[i].discriminator.value in states.entries
           && states.entries[offers[i].discriminator.value] == offers[i].model
    {
      assert Usable(offers[i], members) && states.order[i] == offers[i].discriminator.value;
    }
  }

  lemma {:induction false} CommandMembers(
    commands: Dict<Discriminator, CommandDefinition>, offers: seq<Offer>, members: set<Discriminator>)
    requires CommandsFrom(commands, offers) && ((offers == [] && members == {}) || Registrable(offers, members))
    ensures forall d :: d in commands.entries <==> d in members
  {
    forall d ensures d in commands.entries <==> d in members {
      assert d in commands.entries <==> d in Discriminators(offers);
      if d in Discriminators(offers) {
        var i :| 0 <= i < |offers| && Discriminators(offers)[i] == d;
        assert Usable(offers[i], members);
      }
    }
  }

  lemma {:induction false} NoCommands(commands: Dict<Discriminator, CommandDefinition>, offers: seq<Offer>)
    requires offers == [] && CommandsFrom(commands, offers)
    ensures commands.entries == map[]
  {
    assert forall c :: c in commands.entries ==> c in commands.order;
  }
}
