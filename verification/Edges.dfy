/** The edges of a composed graph: what their endpoints are, who owns them, and how many there are. */
module Edges {
  import opened Wrappers
  import opened Sorting
  import opened Dicts
  import opened Schemas
  import opened Processors
  import opened Composer
  import opened Composition
  import opened Producers

  ghost function EdgesOf(p: Producer): set<GraphEdge> {
    if p.kind.INITIALIZER? then CreateEdges(p.processor, p.name, p.targets)
    else HandlerEdges(p.kind, p.processor, p.name, p.sources, p.targets, p.canDelete)
  }

  ghost function EdgesOfAll(ps: seq<Producer>): set<GraphEdge> {
    if ps == [] then {} else EdgesOfAll(ps[..|ps| - 1]) + EdgesOf(ps[|ps| - 1])
  }

  ghost function ProducerLists(ps: seq<Processor>): seq<seq<Producer>> {
    seq(|ps|, i requires 0 <= i < |ps| => ProducersOf(ps[i].name, ps[i].defs))
  }

  /** Every function of every processor, in order. */
  ghost function AllProducers(ps: seq<Processor>): seq<Producer> {
    Flat(ProducerLists(ps))
  }

  // ----- The graph is what its functions contribute -----

  lemma {:induction false} EdgesOfConcat(xs: seq<Producer>, ys: seq<Producer>)
    ensures EdgesOfAll(xs + ys) == EdgesOfAll(xs) + EdgesOfAll(ys)
  {
    hide EdgesOf;
    if ys == [] {
      assert xs + ys == xs;
    } else {
      assert (xs + ys)[..|xs + ys| - 1] == xs + ys[..|ys| - 1];
      EdgesOfConcat(xs, ys[..|ys| - 1]);
    }
  }

  lemma {:induction false} FromReactions(processor: string, reactions: seq<Reaction>)
    ensures ReactionEdges(processor, reactions) == EdgesOfAll(ReactionProducers(processor, reactions))
  {
    hide HandlerEdges, CreateEdges;
    if reactions != [] {
      var init := reactions[..|reactions| - 1];
      FromReactions(processor, init);
      assert ReactionProducers(processor, reactions)[..|init|] == ReactionProducers(processor, init);
    }
  }

  ghost function Handlers(processor: string, d: Dict<CommandModel, Handler>, order: seq<CommandModel>): seq<Producer>
    requires forall c :: c in order ==> c in d.entries
  {
    seq(|order|, i requires 0 <= i < |order| => HandlerProducer(processor, d.entries[order[i]]))
  }

  lemma {:induction false} FromHandlers(
    processor: string, d: Dict<CommandModel, Handler>, order: seq<CommandModel>)
    requires forall c :: c in order ==> c in d.entries
    ensures CommandEdges(processor, d, order) == EdgesOfAll(Handlers(processor, d, order))
  {
    hide HandlerEdges, CreateEdges;
    if order != [] {
      var init := order[..|order| - 1];
      FromHandlers(processor, d, init);
      assert Handlers(processor, d, order)[..|init|] == Handlers(processor, d, init);
    }
  }

  ghost function Initializers(
    processor: string, d: Dict<CommandModel, Initializer>, order: seq<CommandModel>): seq<Producer>
    requires forall c :: c in order ==> c in d.entries
  {
    seq(|order|, i requires 0 <= i < |order| => InitializerProducer(processor, d.entries[order[i]]))
  }

  lemma {:induction false} FromInitializers(
    processor: string, d: Dict<CommandModel, Initializer>, order: seq<CommandModel>)
    requires forall c :: c in order ==> c in d.entries
    ensures InitializerEdges(processor, d, order) == EdgesOfAll(Initializers(processor, d, order))
  {
    hide HandlerEdges, CreateEdges;
    if order != [] {
      var init := order[..|order| - 1];
      FromInitializers(processor, d, init);
      assert Initializers(processor, d, order)[..|init|] == Initializers(processor, d, init);
    }
  }

  lemma {:induction false} FromProducers(p: Processor)
    ensures ProcessorEdges(p) == EdgesOfAll(ProducersOf(p.name, p.defs))
  {
    hide ReactionEdges, CommandEdges, InitializerEdges, EdgesOfAll;
    var rs := ReactionProducers(p.name, p.defs.reactions);
    var hs := HandlerProducers(p.name, p.defs.commands);
    var ns := InitializerProducers(p.name, p.defs.initializers);
    FromReactions(p.name, p.defs.reactions);
    FromHandlers(p.name, p.defs.commands, p.defs.commands.order);
    FromInitializers(p.name, p.defs.initializers, p.defs.initializers.order);
    assert hs == Handlers(p.name, p.defs.commands, p.defs.commands.order);
    assert ns == Initializers(p.name, p.defs.initializers, p.defs.initializers.order);
    EdgesOfConcat(rs, hs);
    EdgesOfConcat(rs + hs, ns);
  }

  lemma {:induction false} GraphFromProducers(ps: seq<Processor>)
    ensures GraphEdges(ps) == EdgesOfAll(AllProducers(ps))
  {
    hide ProcessorEdges, EdgesOf, ProducersOf;
    if ps == [] {
      assert AllProducers(ps) == [];
    } else {
      var init, last := ps[..|ps| - 1], ps[|ps| - 1];
      GraphFromProducers(init);
      FromProducers(last);
      assert ProducerLists(ps)[..|init|] == ProducerLists(init);
      EdgesOfConcat(AllProducers(init), ProducersOf(last.name, last.defs));
    }
  }

  lemma {:induction false} EdgeHasProducer(ps: seq<Producer>, e: GraphEdge)
    ensures e in EdgesOfAll(ps) <==> exists i :: 0 <= i < |ps| && e in EdgesOf(ps[i])
  {
    hide EdgesOf;
    if ps != [] {
      EdgeHasProducer(ps[..|ps| - 1], e);
    }
  }

  // ----- Endpoints -----

  ghost predicate EdgeOk(schema: Schema, e: GraphEdge) {
    && (e.source.None? <==> e.kind.INITIALIZER?)
    && (e.target.None? <==> e.deletes)
    && (e.source.None? ==> !e.deletes)
    && (e.source.Some? ==> ContainsState(schema, e.source.value))
    && (e.target.Some? ==> ContainsState(schema, e.target.value))
  }

  lemma {:induction false} ProducerEdgeOk(schema: Schema, p: Producer, e: GraphEdge)
    requires ProducerOk(schema, p) && e in EdgesOf(p)
    ensures EdgeOk(schema, e) && e.kind == p.kind && e.processor == p.processor && e.function_ == p.name
    ensures e.source.Some? ==> e.source.value in p.sources
    ensures e.kind.INITIALIZER? || p.targets != {} || p.canDelete
  {
    hide ContainsState;
  }

  ghost predicate AllBuilt(ps: seq<Processor>) {
    forall p :: p in ps ==> Built(p)
  }

  lemma {:induction false} BuiltDefsOk(p: Processor)
    requires Built(p)
    ensures DefsOk(p.schema, p.name, p.defs) && OneTransitionPerState(p.defs.reactions)
  {
    hide DefsOk, RegisterAll, OneTransitionPerState;
    var pending: seq<Pending> :| Finalized(p.schema, pending) == Some(p.defs);
    RegisteredDefsOk(p.schema, p.name, pending);
  }

  /** Finalizing already settles everything that composing a processor alone would check. */
  lemma {:induction false} FinalizedComposesAlone(p: Processor)
    requires Built(p)
    ensures Composable([p])
  {
    BuiltDefsOk(p);
    ComposablePiecewise([p]);
    hide OneTransitionPerState, ProducersOf, Composable, Compatible;
    assert NoDup(OwnCommands(p)) by {
      assert forall c :: c in p.defs.commands.order ==> c !in p.defs.initializers.order;
    }
    assert forall i :: 0 <= i < |[p]| ==> [p][i] == p;
  }

  lemma {:induction false} ProducerAt(ps: seq<Processor>, e: GraphEdge) returns (i: nat, q: Producer)
    requires e in GraphEdges(ps)
    ensures i < |ps| && q in ProducersOf(ps[i].name, ps[i].defs) && e in EdgesOf(q)
  {
    hide GraphEdges, EdgesOf, ProducersOf, EdgesOfAll, Flat;
    GraphFromProducers(ps);
    var all := AllProducers(ps);
    EdgeHasProducer(all, e);
    var k :| 0 <= k < |all| && e in EdgesOf(all[k]);
    q := all[k];
    InFlat(ProducerLists(ps), q);
    i :| 0 <= i < |ps| && q in ProducerLists(ps)[i];
  }

  /** Endpoints are registered; the source is absent exactly for initializers, the target exactly for deletes. */
  lemma {:induction false} EdgesAreSound(ps: seq<Processor>, e: GraphEdge)
    requires Composable(ps) && AllBuilt(ps) && e in GraphEdges(ps)
    ensures EdgeOk(ps[0].schema, e)
  {
    hide GraphEdges, EdgesOf, ProducersOf, EdgeOk, ProducerOk, Built;
    hide OneTransitionPerState, AllReactions, AllCommands, NoDup;
    var i, q := ProducerAt(ps, e);
    assert ps[i] in ps;
    BuiltDefsOk(ps[i]);
    ProducerEdgeOk(ps[i].schema, q, e);
  }

  // ----- One reaction per source -----

  lemma {:induction false} OwnLabel(processor: string, defs: Definitions, q: Producer)
    requires q in ProducersOf(processor, defs)
    ensures q.processor == processor
    ensures q.kind.REACTION? ==>
              exists k :: 0 <= k < |defs.reactions| && q == ReactionProducer(processor, defs.reactions[k])
  {
    hide WellFormed;
  }

  lemma {:induction false} ReactionBehind(ps: seq<Processor>, e: GraphEdge) returns (i: nat, k: nat)
    requires Composable(ps) && AllBuilt(ps) && e in GraphEdges(ps) && e.kind.REACTION? && e.source.Some?
    ensures i < |ps| && ps[i].name == e.processor && k < |ps[i].defs.reactions|
    ensures var r := ps[i].defs.reactions[k];
            r.name == e.function_ && r.Transitioning() && e.source.value in r.sources
  {
    hide GraphEdges, EdgesOf, ProducersOf, ProducerOk, EdgeOk, Built;
    hide OneTransitionPerState, AllReactions, AllCommands, NoDup;
    var q: Producer;
    i, q := ProducerAt(ps, e);
    assert ps[i] in ps;
    BuiltDefsOk(ps[i]);
    ProducerEdgeOk(ps[i].schema, q, e);
    OwnLabel(ps[i].name, ps[i].defs, q);
    k :| 0 <= k < |ps[i].defs.reactions| && q == ReactionProducer(ps[i].name, ps[i].defs.reactions[k]);
  }

  /** A state leaves by one reaction only: reaction edges with one source share processor and function. */
  lemma {:induction false} OneReactionPerSource(ps: seq<Processor>, e: GraphEdge, f: GraphEdge)
    requires Composable(ps) && AllBuilt(ps) && e in GraphEdges(ps) && f in GraphEdges(ps)
    requires e.kind.REACTION? && f.kind.REACTION? && e.source == f.source
    ensures e.processor == f.processor && e.function_ == f.function_
  {
    EdgesAreSound(ps, e);
    var i, k := ReactionBehind(ps, e);
    var j, l := ReactionBehind(ps, f);
    ReactionsPiecewise(ps);
    hide GraphEdges, AllReactions, AllCommands, Built, NoDup;
    var r, q := ps[i].defs.reactions[k], ps[j].defs.reactions[l];
    assert !Apart(r, q) && !Apart(q, r) by {
      assert e.source.value in r.sources && e.source.value in q.sources;
    }
    assert i == j;
    assert k == l;
  }

  // ----- How many -----

  ghost function EdgeCount(p: Producer): nat {
    if p.kind.INITIALIZER? then |p.targets|
    else |p.sources| * (|p.targets| + if p.canDelete then 1 else 0)
  }

  ghost function Total(ps: seq<Producer>): nat {
    if ps == [] then 0 else Total(ps[..|ps| - 1]) + EdgeCount(ps[|ps| - 1])
  }

  lemma {:induction false} CountCreates(processor: string, name: string, targets: set<StateModel>)
    ensures |CreateEdges(processor, name, targets)| == |targets|
  {
    if targets != {} {
      var t :| t in targets;
      CountCreates(processor, name, targets - {t});
      assert CreateEdges(processor, name, targets)
          == CreateEdges(processor, name, targets - {t})
             + {GraphEdge(INITIALIZER, processor, name, None, Some(t), false)};
    }
  }

  ghost function FromSource(
    kind: ProducerKind, processor: string, name: string, s: StateModel, targets: set<StateModel>): set<GraphEdge> {
    set t | t in targets :: GraphEdge(kind, processor, name, Some(s), Some(t), false)
  }

  lemma {:induction false} CountFromSource(
    kind: ProducerKind, processor: string, name: string, s: StateModel, targets: set<StateModel>)
    ensures |FromSource(kind, processor, name, s, targets)| == |targets|
  {
    if targets != {} {
      var t :| t in targets;
      CountFromSource(kind, processor, name, s, targets - {t});
      assert FromSource(kind, processor, name, s, targets)
          == FromSource(kind, processor, name, s, targets - {t})
             + {GraphEdge(kind, processor, name, Some(s), Some(t), false)};
    }
  }

  /** The edges out of one source: its targets, and the delete if there is one. */
  ghost function SourceEdges(
    kind: ProducerKind, processor: string, name: string, s: StateModel, targets: set<StateModel>, canDelete: bool)
    : set<GraphEdge>
  {
    FromSource(kind, processor, name, s, targets)
    + if canDelete then {GraphEdge(kind, processor, name, Some(s), None, true)} else {}
  }

  lemma {:induction false} CountSource(
    kind: ProducerKind, processor: string, name: string, s: StateModel, targets: set<StateModel>, canDelete: bool)
    ensures |SourceEdges(kind, processor, name, s, targets, canDelete)| == |targets| + if canDelete then 1 else 0
  {
    CountFromSource(kind, processor, name, s, targets);
    if canDelete {
      assert GraphEdge(kind, processor, name, Some(s), None, true) !in FromSource(kind, processor, name, s, targets);
    }
  }

  ghost predicate IsHandlerEdge(
    kind: ProducerKind, processor: string, name: string, targets: set<StateModel>, canDelete: bool, e: GraphEdge)
  {
    && e.kind == kind && e.processor == processor && e.function_ == name && e.source.Some?
    && (if e.target.None? then e.deletes && canDelete else !e.deletes && e.target.value in targets)
  }

  lemma {:induction false} EdgeOfHandler(
    kind: ProducerKind, processor: string, name: string,
    sources: set<StateModel>, targets: set<StateModel>, canDelete: bool, e: GraphEdge)
    ensures e in HandlerEdges(kind, processor, name, sources, targets, canDelete)
            <==> IsHandlerEdge(kind, processor, name, targets, canDelete, e) && e.source.value in sources
  {}

  lemma {:induction false} EdgeOfSource(
    kind: ProducerKind, processor: string, name: string, s: StateModel, targets: set<StateModel>, canDelete: bool,
    e: GraphEdge)
    ensures e in SourceEdges(kind, processor, name, s, targets, canDelete)
            <==> IsHandlerEdge(kind, processor, name, targets, canDelete, e) && e.source.value == s
  {}

  lemma {:induction false} OneSourceOut(
    kind: ProducerKind, processor: string, name: string,
    sources: set<StateModel>, s: StateModel, targets: set<StateModel>, canDelete: bool)
    requires s in sources
    ensures var rest := HandlerEdges(kind, processor, name, sources - {s}, targets, canDelete);
            var own := SourceEdges(kind, processor, name, s, targets, canDelete);
            && HandlerEdges(kind, processor, name, sources, targets, canDelete) == rest + own
            && rest !! own
  {
    hide HandlerEdges, SourceEdges, IsHandlerEdge;
    var rest := HandlerEdges(kind, processor, name, sources - {s}, targets, canDelete);
    var own := SourceEdges(kind, processor, name, s, targets, canDelete);
    var all := HandlerEdges(kind, processor, name, sources, targets, canDelete);
    forall e ensures (e in all <==> e in rest || e in own) && !(e in rest && e in own) {
      EdgeOfHandler(kind, processor, name, sources, targets, canDelete, e);
      EdgeOfHandler(kind, processor, name, sources - {s}, targets, canDelete, e);
      EdgeOfSource(kind, processor, name, s, targets, canDelete, e);
    }
  }

  lemma {:induction false} OneMoreRow(m: nat, n: nat)
    requires m > 0
    ensures m * n == (m - 1) * n + n
  {}

  lemma {:induction false} CountHandlers(
    kind: ProducerKind, processor: string, name: string,
    sources: set<StateModel>, targets: set<StateModel>, canDelete: bool)
    ensures |HandlerEdges(kind, processor, name, sources, targets, canDelete)|
         == |sources| * (|targets| + if canDelete then 1 else 0)
  {
    if sources == {} {
      assert HandlerEdges(kind, processor, name, sources, targets, canDelete) == {};
    } else {
      hide HandlerEdges, SourceEdges;
      var s :| s in sources;
      CountHandlers(kind, processor, name, sources - {s}, targets, canDelete);
      OneSourceOut(kind, processor, name, sources, s, targets, canDelete);
      CountSource(kind, processor, name, s, targets, canDelete);
      OneMoreRow(|sources|, |targets| + if canDelete then 1 else 0);
    }
  }

  predicate LabelsDiffer(p: Producer, q: Producer) {
    p.processor != q.processor || p.name != q.name
  }

  lemma {:induction false} LabelOf(p: Producer, e: GraphEdge)
    requires e in EdgesOf(p)
    ensures e.processor == p.processor && e.function_ == p.name
  {}

  lemma {:induction false} CountOwn(p: Producer)
    ensures |EdgesOf(p)| == EdgeCount(p)
  {
    hide CreateEdges, HandlerEdges;
    CountCreates(p.processor, p.name, p.targets);
    CountHandlers(p.kind, p.processor, p.name, p.sources, p.targets, p.canDelete);
  }

  lemma {:induction false} NoneMerge(ps: seq<Producer>, last: Producer)
    requires forall i :: 0 <= i < |ps| ==> LabelsDiffer(ps[i], last)
    ensures EdgesOfAll(ps) !! EdgesOf(last)
  {
    hide EdgesOf, EdgesOfAll;
    forall e | e in EdgesOfAll(ps) ensures e !in EdgesOf(last) {
      EdgeHasProducer(ps, e);
      var i :| 0 <= i < |ps| && e in EdgesOf(ps[i]);
      LabelOf(ps[i], e);
      if e in EdgesOf(last) {
        LabelOf(last, e);
      }
    }
  }

  lemma {:induction false} CountEdges(ps: seq<Producer>)
    requires Pairwise(LabelsDiffer, ps)
    ensures |EdgesOfAll(ps)| == Total(ps)
  {
    if ps != [] {
      var init, last := ps[..|ps| - 1], ps[|ps| - 1];
      hide EdgesOf, EdgeCount, LabelsDiffer;
      assert forall i :: 0 <= i < |init| ==> init[i] == ps[i];
      CountEdges(init);
      CountOwn(last);
      NoneMerge(init, last);
    }
  }

  lemma {:induction false} OwnLabelsDiffer(p: Processor)
    requires Built(p)
    ensures Pairwise(LabelsDiffer, ProducersOf(p.name, p.defs))
  {
    BuiltDefsOk(p);
    hide ProducersOf, ProducerOk, OneTransitionPerState, Built;
    var qs := ProducersOf(p.name, p.defs);
    var names := FunctionNames(qs);
    assert forall x :: multiset(names)[x] <= 1;
    NamedOnce(names);
    forall i, j | 0 <= i < j < |qs| ensures LabelsDiffer(qs[i], qs[j]) {
      assert names[i] != names[j];
    }
  }

  lemma {:induction false} NamedOnce<T>(xs: seq<T>)
    requires forall x :: multiset(xs)[x] <= 1
    ensures NoDup(xs)
  {
    forall i, j | 0 <= i < j < |xs| ensures xs[i] != xs[j] {
      if xs[i] == xs[j] {
        OccursTwice(xs, i, j);
      }
    }
  }

  lemma {:induction false} LabelsAcross(p: Processor, q: Processor)
    requires p.name != q.name
    ensures Across(LabelsDiffer,
                   ProducersOf(p.name, p.defs), ProducersOf(q.name, q.defs))
  {
    hide ProducersOf;
    forall x, y | x in ProducersOf(p.name, p.defs) && y in ProducersOf(q.name, q.defs) ensures LabelsDiffer(x, y) {
      OwnLabel(p.name, p.defs, x);
      OwnLabel(q.name, q.defs, y);
    }
  }

  /** No two contributions merge: the graph has as many edges as its functions declare. */
  lemma {:induction false} EdgesAreConserved(ps: seq<Processor>)
    requires Composable(ps) && AllBuilt(ps)
    ensures |GraphEdges(ps)| == Total(AllProducers(ps))
  {
    hide GraphEdges, ProducersOf, Total, EdgesOfAll, Pairwise, Across, Built;
    hide OneTransitionPerState, AllReactions, AllCommands;
    var lists := ProducerLists(ps);
    var rel := LabelsDiffer;
    forall i | 0 <= i < |ps| ensures Pairwise(rel, lists[i]) {
      assert ps[i] in ps;
      OwnLabelsDiffer(ps[i]);
    }
    forall i, j | 0 <= i < j < |ps| ensures Across(rel, lists[i], lists[j]) {
      assert Names(ps)[i] != Names(ps)[j];
      LabelsAcross(ps[i], ps[j]);
    }
    PairwiseFlat(rel, lists);
    CountEdges(AllProducers(ps));
    GraphFromProducers(ps);
  }
}
