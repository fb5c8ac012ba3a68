/** Processors as they register, finalize and compose. */
module Composer {
  import opened Wrappers
  import opened Sorting
  import opened Dicts
  import opened Schemas
  import opened Processors

  /** A finalized processor. */
  datatype Processor = Processor(schema: Schema, name: string, defs: Definitions)

  datatype GraphEdge = GraphEdge(
    kind: ProducerKind, processor: string, function_: string,
    source: Option<StateModel>, target: Option<StateModel>, deletes: bool)

  datatype ComposedGraph = ComposedGraph(schema: Schema, edges: set<GraphEdge>)

  // ----- Edges -----

  /** One edge per source and target, and one per source for a possible delete. */
  function HandlerEdges(
    kind: ProducerKind, processor: string, name: string,
    sources: set<StateModel>, targets: set<StateModel>, canDelete: bool): set<GraphEdge>
  {
    (set s, t | s in sources && t in targets :: GraphEdge(kind, processor, name, Some(s), Some(t), false))
    + if canDelete then set s | s in sources :: GraphEdge(kind, processor, name, Some(s), None, true) else {}
  }

  function ReactionEdges(processor: string, reactions: seq<Reaction>): set<GraphEdge> {
    if reactions == [] then {}
    else
      var r := reactions[|reactions| - 1];
      ReactionEdges(processor, reactions[..|reactions| - 1])
      + HandlerEdges(REACTION, processor, r.name, r.sources, r.targets, r.canDelete)
  }

  function CommandEdges(processor: string, commands: Dict<CommandModel, Handler>, order: seq<CommandModel>)
    : set<GraphEdge>
    requires forall c :: c in order ==> c in commands.entries
  {
    if order == [] then {}
    else
      var h := commands.entries[order[|order| - 1]];
      CommandEdges(processor, commands, order[..|order| - 1])
      + HandlerEdges(COMMAND, processor, h.name, h.sources, h.targets, h.canDelete)
  }

  function CreateEdges(processor: string, name: string, targets: set<StateModel>): set<GraphEdge> {
    set t | t in targets :: GraphEdge(INITIALIZER, processor, name, None, Some(t), false)
  }

  function InitializerEdges(
    processor: string, initializers: Dict<CommandModel, Initializer>, order: seq<CommandModel>): set<GraphEdge>
    requires forall c :: c in order ==> c in initializers.entries
  {
    if order == [] then {}
    else
      var i := initializers.entries[order[|order| - 1]];
      InitializerEdges(processor, initializers, order[..|order| - 1]) + CreateEdges(processor, i.name, i.targets)
  }

  function ProcessorEdges(p: Processor): set<GraphEdge> {
    ReactionEdges(p.name, p.defs.reactions)
    + CommandEdges(p.name, p.defs.commands, p.defs.commands.order)
    + InitializerEdges(p.name, p.defs.initializers, p.defs.initializers.order)
  }

  function GraphEdges(ps: seq<Processor>): set<GraphEdge> {
    if ps == [] then {} else GraphEdges(ps[..|ps| - 1]) + ProcessorEdges(ps[|ps| - 1])
  }

  // ----- What may be composed -----

  function AllReactions(ps: seq<Processor>): seq<Reaction> {
    if ps == [] then [] else AllReactions(ps[..|ps| - 1]) + ps[|ps| - 1].defs.reactions
  }

  function OwnCommands(p: Processor): seq<CommandModel> {
    p.defs.commands.order + p.defs.initializers.order
  }

  function AllCommands(ps: seq<Processor>): seq<CommandModel> {
    if ps == [] then [] else AllCommands(ps[..|ps| - 1]) + OwnCommands(ps[|ps| - 1])
  }

  function Names(ps: seq<Processor>): seq<string> {
    seq(|ps|, i requires 0 <= i < |ps| => ps[i].name)
  }

  ghost predicate Composable(ps: seq<Processor>) {
    && ps != []
    && (forall i :: 0 <= i < |ps| ==> ps[i].schema == ps[0].schema)
    && NoDup(Names(ps))
    && OneTransitionPerState(AllReactions(ps))
    && NoDup(AllCommands(ps))
  }

  /** The definitions are what finalizing some list of registered functions gives. */
  ghost predicate Built(p: Processor) {
    exists pending: seq<Pending> :: Finalized(p.schema, pending) == Some(p.defs)
  }

  // ----- The objects -----

  class FSMProcessor {
    const schema: Schema
    const name: string
    var pending: seq<Pending>
    var reactions: Option<seq<Reaction>>
    var commands: Dict<CommandModel, Handler>
    var initializers: Dict<CommandModel, Initializer>
    var names: set<string>

    /** What finalizing gives, or gave. */
    ghost function Compiled(): Option<Definitions>
      reads this
    {
      if reactions.Some? then Some(Definitions(reactions.value, commands, initializers, names))
      else Finalized(schema, pending)
    }

    /** A finalized processor holds what its first registrations compile to; later ones no longer count. */
    ghost predicate Valid()
      reads this
    {
      reactions.Some? ==>
        exists n :: 0 <= n <= |pending| && Finalized(schema, pending[..n]) == Compiled()
    }

    constructor (schema: Schema, name: string)
      ensures Valid()
      ensures this.schema == schema && this.name == name && pending == [] && reactions.None?
    {
      this.schema, this.name := schema, name;
      pending, reactions := [], None;
      commands, initializers, names := RawDict([], map[]), RawDict([], map[]), {};
    }

    /** What a decorator obtained earlier does when it is applied; it does not look at the state again. */
    method Append(p: Pending)
      requires Valid()
      modifies this`pending
      ensures Valid()
      ensures pending == old(pending) + [p]
      ensures reactions.Some? ==> Compiled() == old(Compiled())
    {
      hide Finalized;
      ghost var before := pending;
      pending := pending + [p];
      assert forall n :: 0 <= n <= |before| ==> pending[..n] == before[..n];
    }

    /** A decorator applied at once is refused when the processor is finalized. */
    method Decorate(p: Pending) returns (allowed: bool)
      requires Valid()
      modifies this`pending
      ensures Valid() && Compiled() == if old(reactions).Some? then old(Compiled()) else Finalized(schema, pending)
      ensures allowed <==> old(reactions).None?
      ensures pending == if allowed then old(pending) + [p] else old(pending)
    {
      if reactions.Some? {
        return false;
      }
      Append(p);
      return true;
    }

    /** Compile every registered function once; a failure leaves the processor as it was. */
    method Finalize() returns (ok: bool)
      requires Valid()
      modifies this
      ensures Valid()
      ensures ok <==> old(Compiled()).Some?
      ensures ok ==> reactions.Some? && Compiled() == old(Compiled())
      ensures !ok ==> reactions == old(reactions) && commands == old(commands)
      ensures !ok ==> initializers == old(initializers) && names == old(names)
      ensures pending == old(pending)
      ensures old(reactions).Some? ==> reactions == old(reactions) && Compiled() == old(Compiled())
    {
      if reactions.Some? {
        return true;
      }
      var defs := NOTHING;
      for i := 0 to |pending|
        invariant RegisterAll(schema, pending[..i]) == Some(defs)
      {
        var next := Register(schema, defs, pending[i]);
        assert pending[..i + 1][..i] == pending[..i];
        if next.None? {
          FailureStays(schema, pending, i + 1);
          return false;
        }
        defs := next.value;
      }
      assert pending[..|pending|] == pending;
      var single := ValidateTransitioningReactions(defs.reactions);
      if !single {
        return false;
      }
      reactions := Some(defs.reactions);
      commands, initializers, names := defs.commands, defs.initializers, defs.names;
      assert Finalized(schema, pending[..|pending|]) == Compiled();
      return true;
    }
  }

  lemma {:induction false} FailureStays(schema: Schema, pending: seq<Pending>, n: nat)
    requires n <= |pending| && RegisterAll(schema, pending[..n]).None?
    ensures RegisterAll(schema, pending).None?
  {
    if n == |pending| {
      assert pending[..n] == pending;
    } else {
      assert pending[..|pending| - 1][..n] == pending[..n];
      FailureStays(schema, pending[..|pending| - 1], n);
    }
  }

  ghost function Values(ps: seq<FSMProcessor>): seq<Processor>
    reads ps
    requires forall p :: p in ps ==> p.Compiled().Some?
  {
    seq(|ps|, i requires 0 <= i < |ps| && (forall p :: p in ps ==> p.Compiled().Some?) reads ps =>
      Processor(ps[i].schema, ps[i].name, ps[i].Compiled().value))
  }

  lemma {:induction false} ValuesBuilt(ps: seq<FSMProcessor>)
    requires forall p :: p in ps ==> p.reactions.Some? && p.Valid()
    ensures forall v :: v in Values(ps) ==> Built(v)
  {
    hide Finalized;
    forall v | v in Values(ps) ensures Built(v) {
      var i :| 0 <= i < |ps| && Values(ps)[i] == v;
      assert ps[i] in ps && ps[i].Valid();
      var n :| 0 <= n <= |ps[i].pending| && Finalized(ps[i].schema, ps[i].pending[..n]) == ps[i].Compiled();
    }
  }

  /** A value for each processor that has been finalized. */
  method ReadValues(ps: seq<FSMProcessor>) returns (values: seq<Processor>)
    requires forall p :: p in ps ==> p.reactions.Some?
    ensures values == Values(ps)
  {
    values := [];
    for i := 0 to |ps|
      invariant |values| == i
      invariant forall j :: 0 <= j < i ==> values[j] == Values(ps)[j]
    {
      var p := ps[i];
      assert p in ps;
      var defs := Definitions(p.reactions.value, p.commands, p.initializers, p.names);
      values := values + [Processor(p.schema, p.name, defs)];
    }
  }

  /** The owner check over all processors: each command model may be noted once. */
  method ValidateCommands(ps: seq<Processor>) returns (ok: bool)
    ensures ok <==> NoDup(AllCommands(ps))
  {
    var owners: map<CommandModel, string> := map[];
    for i := 0 to |ps|
      invariant NoDup(AllCommands(ps[..i]))
      invariant forall c :: c in owners <==> c in AllCommands(ps[..i])
    {
      var own := OwnCommands(ps[i]);
      assert ps[..i + 1][..i] == ps[..i];
      var noted := AllCommands(ps[..i]);
      for j := 0 to |own|
        invariant NoDup(noted + own[..j])
        invariant forall c :: c in owners <==> c in noted + own[..j]
      {
        assert own[..j + 1] == own[..j] + [own[j]];
        if own[j] in owners {
          DuplicateStays(noted, own, j);
          PrefixDuplicates(ps, i + 1);
          return false;
        }
        owners := owners[own[j] := ps[i].name];
        assert noted + own[..j + 1] == noted + own[..j] + [own[j]];
      }
      assert own[..|own|] == own;
    }
    assert ps[..|ps|] == ps;
    return true;
  }

  lemma {:induction false} DuplicateStays(noted: seq<CommandModel>, own: seq<CommandModel>, j: nat)
    requires j < |own| && own[j] in noted + own[..j]
    ensures !NoDup(noted + own)
  {
    var i :| 0 <= i < |noted + own[..j]| && (noted + own[..j])[i] == own[j];
    assert (noted + own)[i] == own[j] && (noted + own)[|noted| + j] == own[j];
  }

  lemma {:induction false} PrefixDuplicates(ps: seq<Processor>, n: nat)
    requires n <= |ps| && !NoDup(AllCommands(ps[..n]))
    ensures !NoDup(AllCommands(ps))
  {
    if n == |ps| {
      assert ps[..n] == ps;
    } else {
      assert ps[..|ps| - 1][..n] == ps[..n];
      PrefixDuplicates(ps[..|ps| - 1], n);
      var init := AllCommands(ps[..|ps| - 1]);
      var i, j :| 0 <= i < j < |init| && init[i] == init[j];
      assert AllCommands(ps)[i] == AllCommands(ps)[j];
    }
  }

  /** The checks that stand between finalized processors and their graph. */
  method ValidateComposition(ps: seq<Processor>) returns (ok: bool)
    requires ps != []
    ensures ok <==> Composable(ps)
  {
    hide OneTransitionPerState, AllReactions, AllCommands;
    if exists i :: 0 <= i < |ps| && ps[i].schema != ps[0].schema {
      return false;
    }
    var names := Names(ps);
    if exists i, j :: 0 <= i < j < |names| && names[i] == names[j] {
      return false;
    }
    var single := ValidateTransitioningReactions(AllReactions(ps));
    if !single {
      return false;
    }
    ok := ValidateCommands(ps);
  }

  method CollectEdges(ps: seq<Processor>) returns (edges: set<GraphEdge>)
    ensures edges == GraphEdges(ps)
  {
    hide ProcessorEdges;
    edges := {};
    for i := 0 to |ps|
      invariant edges == GraphEdges(ps[..i])
    {
      assert ps[..i + 1][..i] == ps[..i];
      edges := edges + ProcessorEdges(ps[i]);
    }
    assert ps[..|ps|] == ps;
  }

  /** Finalize in order, up to the first failure. */
  method FinalizeAll(processors: seq<FSMProcessor>) returns (ok: bool)
    requires forall p :: p in processors ==> p.Valid()
    modifies processors
    ensures forall p :: p in processors ==> p.Valid()
    ensures forall p :: p in processors ==> p.Compiled() == old(p.Compiled()) && p.pending == old(p.pending)
    ensures ok <==> forall p :: p in processors ==> old(p.Compiled()).Some?
    ensures ok ==> forall p :: p in processors ==> p.reactions.Some?
  {
    hide Finalized;
    for i := 0 to |processors|
      invariant forall p :: p in processors ==> p.Valid()
      invariant forall p :: p in processors ==> p.Compiled() == old(p.Compiled()) && p.pending == old(p.pending)
      invariant forall j :: 0 <= j < i ==> processors[j].reactions.Some?
    {
      ok := processors[i].Finalize();
      if !ok {
        assert processors[i] in processors && old(processors[i].Compiled()).None?;
        return;
      }
    }
    return true;
  }

  /** Finalize all processors and compose them, if they share a schema and nothing is claimed twice. */
  method ComposeProcessors(processors: seq<FSMProcessor>) returns (graph: Option<ComposedGraph>)
    requires forall p :: p in processors ==> p.Valid()
    modifies processors
    ensures forall p :: p in processors ==> p.Valid()
    ensures forall p :: p in processors ==> p.Compiled() == old(p.Compiled()) && p.pending == old(p.pending)
    ensures graph.Some? <==>
              && (forall p :: p in processors ==> old(p.Compiled()).Some?)
              && Composable(old(Values(processors)))
    ensures graph.Some? ==>
              && (forall p :: p in processors ==> p.reactions.Some?)
              && (forall v :: v in old(Values(processors)) ==> Built(v))
              && graph.value == ComposedGraph(processors[0].schema, GraphEdges(old(Values(processors))))
  {
    hide Finalized, GraphEdges, Built, OneTransitionPerState, AllReactions, AllCommands;
    if processors == [] {
      return None;
    }
    var ok := FinalizeAll(processors);
    if !ok {
      return None;
    }
    var ps := ReadValues(processors);
    assert ps == old(Values(processors));
    ValuesBuilt(processors);
    ok := ValidateComposition(ps);
    if !ok {
      return None;
    }
    var edges := CollectEdges(ps);
    return Some(ComposedGraph(processors[0].schema, edges));
  }
}
