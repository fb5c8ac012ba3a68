/** What finalizing guarantees of the functions it compiled. */
module Producers {
  import opened Wrappers
  import opened Dicts
  import opened Schemas
  import opened Processors

  /** One compiled function, whatever its kind; an initializer has no sources and never deletes. */
  datatype Producer = Producer(
    processor: string, kind: ProducerKind, name: string,
    sources: set<StateModel>, targets: set<StateModel>, canDelete: bool)

  ghost function ReactionProducer(processor: string, r: Reaction): Producer {
    Producer(processor, REACTION, r.name, r.sources, r.targets, r.canDelete)
  }

  ghost function HandlerProducer(processor: string, h: Handler): Producer {
    Producer(processor, COMMAND, h.name, h.sources, h.targets, h.canDelete)
  }

  ghost function InitializerProducer(processor: string, i: Initializer): Producer {
    Producer(processor, INITIALIZER, i.name, {}, i.targets, false)
  }

  ghost function ReactionProducers(processor: string, reactions: seq<Reaction>): seq<Producer> {
    seq(|reactions|, i requires 0 <= i < |reactions| => ReactionProducer(processor, reactions[i]))
  }

  ghost function HandlerProducers(processor: string, d: Dict<CommandModel, Handler>): seq<Producer> {
    seq(|d.order|, i requires 0 <= i < |d.order| => HandlerProducer(processor, d.entries[d.order[i]]))
  }

  ghost function InitializerProducers(processor: string, d: Dict<CommandModel, Initializer>): seq<Producer> {
    seq(|d.order|, i requires 0 <= i < |d.order| => InitializerProducer(processor, d.entries[d.order[i]]))
  }

  ghost function ProducersOf(processor: string, defs: Definitions): seq<Producer> {
    ReactionProducers(processor, defs.reactions)
    + HandlerProducers(processor, defs.commands)
    + InitializerProducers(processor, defs.initializers)
  }

  ghost function FunctionNames(ps: seq<Producer>): seq<string> {
    seq(|ps|, i requires 0 <= i < |ps| => ps[i].name)
  }

  ghost predicate AllRegistered(schema: Schema, models: set<StateModel>) {
    forall m :: m in models ==> ContainsState(schema, m)
  }

  ghost predicate ProducerOk(schema: Schema, p: Producer) {
    && AllRegistered(schema, p.sources) && AllRegistered(schema, p.targets)
    && (if p.kind.INITIALIZER? then p.sources == {} && p.targets != {} && !p.canDelete else p.sources != {})
  }

  ghost predicate DefsOk(schema: Schema, processor: string, defs: Definitions) {
    && (forall p :: p in ProducersOf(processor, defs) ==> ProducerOk(schema, p))
    && multiset(FunctionNames(ProducersOf(processor, defs))) == multiset(defs.names)
    && (forall c :: c in defs.commands.entries ==> c !in defs.initializers.entries)
  }

  // ----- One function -----

  lemma {:induction false} ExpandRegistered(schema: Schema, members: seq<Member>, mode: MatchMode)
    ensures var r := Expand(schema, members, mode);
            r.Some? ==> r.value != {} && AllRegistered(schema, r.value)
  {
    if Expand(schema, members, mode).Some? {
      assert Expandable(schema, members[0], mode);
      var m :| m in Matched(schema, members[0].state, mode);
      assert m in Sources(schema, members, mode);
    }
  }

  lemma {:induction false} CommandReturnsRegistered(schema: Schema, expected: set<Outcome>, actual: set<Outcome>)
    ensures var r := CommandReturns(schema, expected, actual);
            r.Some? ==> AllRegistered(schema, r.value.targets)
  {}

  lemma {:induction false} ReactionReturnsRegistered(schema: Schema, outcomes: seq<Outcome>)
    ensures var r := ReactionReturns(schema, outcomes);
            r.Some? ==> AllRegistered(schema, r.value.targets)
  {}

  lemma {:induction false} ReactionOk(schema: Schema, processor: string, p: Pending, name: string)
    ensures var r := CompileReaction(schema, p, name);
            r.Some? ==> ProducerOk(schema, ReactionProducer(processor, r.value)) && r.value.name == name
  {
    hide Expand, ReactionReturns, AllRegistered;
    if p.signature.Some? && |p.signature.value.parameters| == 1 {
      ExpandRegistered(schema, Flatten(p.signature.value.parameters[0]), p.match_);
      ReactionReturnsRegistered(schema, p.signature.value.outcomes);
    }
  }

  lemma {:induction false} HandlerOk(schema: Schema, processor: string, p: Pending, name: string)
    ensures var r := CompileCommand(schema, p, name);
            r.Some? ==> ProducerOk(schema, HandlerProducer(processor, r.value)) && r.value.name == name
  {
    hide Expand, CommandReturns, AllRegistered, CommandParameters, ReturnSet;
    if p.signature.Some? {
      var parameters := CommandParameters(schema, p.signature.value.parameters);
      if parameters.Some? {
        ExpandRegistered(schema, Flatten(parameters.value.1), p.match_);
        CommandReturnsRegistered(schema, parameters.value.0.result, ReturnSet(p));
      }
    }
  }

  lemma {:induction false} InitializerOk(schema: Schema, processor: string, p: Pending, name: string)
    ensures var r := CompileInitializer(schema, p, name);
            r.Some? ==> ProducerOk(schema, InitializerProducer(processor, r.value)) && r.value.name == name
  {
    hide CommandReturns, CommandFor, ReturnSet;
    var r := CompileInitializer(schema, p, name);
    if r.Some? {
      CommandReturnsRegistered(schema, r.value.command.result, ReturnSet(p));
    }
  }

  /** What a registered function contributes to its processor. */
  ghost function ProducerFrom(schema: Schema, processor: string, p: Pending): Option<Producer> {
    var name := FunctionName(p);
    match p.kind
    case REACTION =>
      var r := CompileReaction(schema, p, name);
      if r.Some? then Some(ReactionProducer(processor, r.value)) else None
    case COMMAND =>
      var h := CompileCommand(schema, p, name);
      if h.Some? then Some(HandlerProducer(processor, h.value)) else None
    case INITIALIZER =>
      var n := CompileInitializer(schema, p, name);
      if n.Some? then Some(InitializerProducer(processor, n.value)) else None
  }

  // ----- One registration -----

  /** The producers after a registration are those before it with one inserted. */
  ghost predicate Inserted(before: seq<Producer>, after: seq<Producer>, p: Producer) {
    exists i :: 0 <= i <= |before| && after == before[..i] + [p] + before[i..]
  }

  lemma {:induction false} InsertedNames(before: seq<Producer>, after: seq<Producer>, p: Producer)
    requires Inserted(before, after, p)
    ensures multiset(FunctionNames(after)) == multiset(FunctionNames(before)) + multiset{p.name}
    ensures forall q :: q in after ==> q == p || q in before
  {
    var i :| 0 <= i <= |before| && after == before[..i] + [p] + before[i..];
    var ns := FunctionNames(before);
    assert FunctionNames(after) == ns[..i] + [p.name] + ns[i..];
    assert ns == ns[..i] + ns[i..];
  }

  lemma {:induction false} InsertedAt(left: seq<Producer>, p: Producer, right: seq<Producer>)
    ensures Inserted(left + right, left + [p] + right, p)
  {
    var before := left + right;
    assert before[..|left|] == left && before[|left|..] == right;
  }

  lemma {:induction false} ReactionAdded(processor: string, defs: Definitions, names: set<string>, r: Reaction)
    ensures Inserted(ProducersOf(processor, defs),
                     ProducersOf(processor, defs.(names := names, reactions := defs.reactions + [r])),
                     ReactionProducer(processor, r))
  {
    hide Inserted, ReactionProducer, HandlerProducers, InitializerProducers;
    var q := ReactionProducer(processor, r);
    var rs, hs := ReactionProducers(processor, defs.reactions), HandlerProducers(processor, defs.commands);
    var ns := InitializerProducers(processor, defs.initializers);
    InsertedAt(rs, q, hs + ns);
    assert ReactionProducers(processor, defs.reactions + [r]) == rs + [q];
    assert rs + (hs + ns) == rs + hs + ns && rs + [q] + (hs + ns) == rs + [q] + hs + ns;
  }

  lemma {:induction false} HandlerAdded(
    processor: string, defs: Definitions, names: set<string>, model: CommandModel, h: Handler)
    requires model !in defs.commands.entries
    ensures Inserted(ProducersOf(processor, defs),
                     ProducersOf(processor, defs.(names := names, commands := Set(defs.commands, model, h))),
                     HandlerProducer(processor, h))
  {
    hide Inserted, HandlerProducer, ReactionProducers, InitializerProducers;
    var q := HandlerProducer(processor, h);
    var rs, hs := ReactionProducers(processor, defs.reactions), HandlerProducers(processor, defs.commands);
    var ns := InitializerProducers(processor, defs.initializers);
    InsertedAt(rs + hs, q, ns);
    assert HandlerProducers(processor, Set(defs.commands, model, h)) == hs + [q];
    assert rs + hs + [q] + ns == rs + (hs + [q]) + ns;
  }

  lemma {:induction false} InitializerAdded(
    processor: string, defs: Definitions, names: set<string>, model: CommandModel, n: Initializer)
    requires model !in defs.initializers.entries
    ensures Inserted(ProducersOf(processor, defs),
                     ProducersOf(processor, defs.(names := names, initializers := Set(defs.initializers, model, n))),
                     InitializerProducer(processor, n))
  {
    hide Inserted, InitializerProducer, ReactionProducers, HandlerProducers;
    var q := InitializerProducer(processor, n);
    var rs, hs := ReactionProducers(processor, defs.reactions), HandlerProducers(processor, defs.commands);
    var ns := InitializerProducers(processor, defs.initializers);
    InsertedAt(rs + hs + ns, q, []);
    assert InitializerProducers(processor, Set(defs.initializers, model, n)) == ns + [q];
    assert rs + hs + ns + [] == rs + hs + ns && rs + hs + ns + [q] + [] == rs + hs + (ns + [q]);
  }

  lemma {:induction false} RegisterInserts(schema: Schema, processor: string, defs: Definitions, p: Pending)
    returns (q: Producer)
    requires Register(schema, defs, p).Some?
    ensures var after := Register(schema, defs, p).value;
            && ProducerFrom(schema, processor, p) == Some(q)
            && ProducerOk(schema, q) && q.name !in defs.names
            && after.names == defs.names + {q.name}
            && Inserted(ProducersOf(processor, defs), ProducersOf(processor, after), q)
  {
    hide CompileReaction, CompileCommand, CompileInitializer, ProducerOk, FunctionName, ValidName;
    hide Inserted, ProducersOf, Set;
    var name := FunctionName(p);
    var names := defs.names + {name};
    match p.kind {
      case REACTION =>
        var r := CompileReaction(schema, p, name).value;
        q := ReactionProducer(processor, r);
        ReactionOk(schema, processor, p, name);
        ReactionAdded(processor, defs, names, r);
      case COMMAND =>
        var h := CompileCommand(schema, p, name).value;
        q := HandlerProducer(processor, h);
        HandlerOk(schema, processor, p, name);
        HandlerAdded(processor, defs, names, h.command.model, h);
      case INITIALIZER =>
        var n := CompileInitializer(schema, p, name).value;
        q := InitializerProducer(processor, n);
        InitializerOk(schema, processor, p, name);
        InitializerAdded(processor, defs, names, n.command.model, n);
    }
  }

  lemma {:induction false} RegisterKeepsCommandsApart(schema: Schema, defs: Definitions, p: Pending)
    requires forall c :: c in defs.commands.entries ==> c !in defs.initializers.entries
    ensures var r := Register(schema, defs, p);
            r.Some? ==> forall c :: c in r.value.commands.entries ==> c !in r.value.initializers.entries
  {
    hide CompileReaction, CompileCommand, CompileInitializer;
  }

  lemma {:induction false} RegisterKeepsDefs(schema: Schema, processor: string, defs: Definitions, p: Pending)
    requires DefsOk(schema, processor, defs) && Register(schema, defs, p).Some?
    ensures DefsOk(schema, processor, Register(schema, defs, p).value)
  {
    RegisterKeepsCommandsApart(schema, defs, p);
    var q := RegisterInserts(schema, processor, defs, p);
    hide Register, ProducersOf, ProducerOk, FunctionNames, Inserted;
    var after := Register(schema, defs, p).value;
    InsertedNames(ProducersOf(processor, defs), ProducersOf(processor, after), q);
    assert multiset(defs.names + {q.name}) == multiset(defs.names) + multiset{q.name};
  }

  lemma {:induction false} NothingOk(schema: Schema, processor: string)
    ensures DefsOk(schema, processor, NOTHING)
  {
    assert ProducersOf(processor, NOTHING) == [];
  }

  lemma {:induction false} RegisteredDefsOk(schema: Schema, processor: string, pending: seq<Pending>)
    ensures var r := RegisterAll(schema, pending);
            r.Some? ==> DefsOk(schema, processor, r.value)
  {
    hide DefsOk, Register;
    if pending == [] {
      NothingOk(schema, processor);
    } else {
      var before := RegisterAll(schema, pending[..|pending| - 1]);
      RegisteredDefsOk(schema, processor, pending[..|pending| - 1]);
      if before.Some? && RegisterAll(schema, pending).Some? {
        RegisterKeepsDefs(schema, processor, before.value, pending[|pending| - 1]);
      }
    }
  }
}
