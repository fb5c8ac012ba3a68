/** Processors and composed graphs, said of the registered functions alone. */
module DeclaredGraph {
  import opened Wrappers
  import opened Schemas
  import opened Processors
  import opened Composer
  import opened Composition
  import opened Finalization
  import opened Producers
  import opened Edges
  import opened Declarations

  // ----- Finalizing -----

  predicate Implements(p: Pending, c: CommandModel) {
    !p.kind.REACTION? && TakesCommand(p, c)
  }

  /** A reaction that may move a state on, or delete it. */
  ghost predicate Leaves(schema: Schema, p: Pending, m: StateModel) {
    p.kind.REACTION? && TakesState(schema, p, m) && (MayDelete(p) || exists t :: LeadsTo(p, t))
  }

  /** Both implement one command, or both leave one state. */
  ghost predicate Contend(schema: Schema, p: Pending, q: Pending) {
    || (exists c :: Implements(p, c) && Implements(q, c))
    || (exists m :: Leaves(schema, p, m) && Leaves(schema, q, m))
  }

  ghost predicate SameName(p: Pending, q: Pending) {
    exists name :: IsCalled(p, name) && IsCalled(q, name)
  }

  lemma {:induction false} FitsDeclared(schema: Schema, p: Pending)
    requires SchemaOk(schema)
    ensures Fits(schema, p) <==> Compiles(schema, p)
  {
    CalledByName(p);
    match p.kind {
      case REACTION => ReactionDeclared(schema, p);
      case COMMAND => CommandDeclared(schema, p);
      case INITIALIZER => InitializerDeclared(schema, p);
    }
    hide SchemaOk, CompileReaction, CompileCommand, CompileInitializer, ReactionSignature, CommandSignature;
    hide InitializerSignature, AsDeclared, IsCalled, FunctionName;
  }

  lemma {:induction false} ClaimDeclared(schema: Schema, p: Pending)
    requires SchemaOk(schema) && Fits(schema, p)
    ensures forall c: CommandModel :: Claim(schema, p) == Some(c) <==> Implements(p, c)
  {
    match p.kind {
      case REACTION =>
      case COMMAND => CommandDeclared(schema, p);
      case INITIALIZER => InitializerDeclared(schema, p);
    }
    hide SchemaOk, CompileReaction, CompileCommand, CompileInitializer, ReactionSignature, CommandSignature;
    hide InitializerSignature, AsDeclared, IsCalled, FunctionName, TakesCommand, ValidName;
  }

  lemma {:induction false} OwnReactionDeclared(schema: Schema, p: Pending)
    requires Fits(schema, p) && p.kind.REACTION?
    ensures var own := OwnReactions(schema, p);
            && |own| == 1
            && (forall m :: own[0].Transitioning() && m in own[0].sources <==> Leaves(schema, p, m))
  {
    ReactionDeclared(schema, p);
    hide CompileReaction, ReactionSignature, FunctionName, TakesState, LeadsTo, MayDelete;
    var r := OwnReactions(schema, p)[0];
    assert r.targets != {} <==> exists t :: t in r.targets;
  }

  lemma {:induction false} ApartDeclared(schema: Schema, p: Pending, q: Pending)
    requires Fits(schema, p) && Fits(schema, q)
    ensures Across(Apart, OwnReactions(schema, p), OwnReactions(schema, q))
            <==> !exists m :: Leaves(schema, p, m) && Leaves(schema, q, m)
  {
    if p.kind.REACTION? && q.kind.REACTION? {
      OwnReactionDeclared(schema, p);
      OwnReactionDeclared(schema, q);
      hide Fits, OwnReactions, Leaves;
      var r, s := OwnReactions(schema, p)[0], OwnReactions(schema, q)[0];
      assert Across(Apart, [r], [s]) <==> Apart(r, s) by {
        assert r in [r] && s in [s];
      }
      assert OwnReactions(schema, p) == [r] && OwnReactions(schema, q) == [s];
      if !Apart(r, s) {
        var m :| m in r.sources && m in s.sources;
        assert Leaves(schema, p, m) && Leaves(schema, q, m);
      }
      if m :| Leaves(schema, p, m) && Leaves(schema, q, m) {
        assert m in r.sources && m in s.sources;
      }
    } else {
      hide Fits;
    }
  }

  lemma {:induction false} ClaimsDeclared(schema: Schema, p: Pending, q: Pending)
    requires SchemaOk(schema) && Fits(schema, p) && Fits(schema, q)
    ensures (Claim(schema, p).Some? ==> Claim(schema, p) != Claim(schema, q))
            <==> !exists c :: Implements(p, c) && Implements(q, c)
  {
    ClaimDeclared(schema, p);
    ClaimDeclared(schema, q);
    hide SchemaOk, Fits, Claim, Implements;
    if Claim(schema, p).Some? && Claim(schema, p) == Claim(schema, q) {
      assert Implements(p, Claim(schema, p).value) && Implements(q, Claim(schema, p).value);
    }
  }

  lemma {:induction false} AgreeDeclared(schema: Schema, p: Pending, q: Pending)
    requires SchemaOk(schema) && Fits(schema, p) && Fits(schema, q)
    ensures Agree(schema, p, q) <==> !SameName(p, q) && !Contend(schema, p, q)
  {
    CalledByName(p);
    CalledByName(q);
    ClaimsDeclared(schema, p, q);
    ApartDeclared(schema, p, q);
    hide SchemaOk, Fits, Claim, Implements, Leaves, Across, OwnReactions, IsCalled, FunctionName;
    if FunctionName(p) == FunctionName(q) {
      assert IsCalled(p, FunctionName(p)) && IsCalled(q, FunctionName(p));
    }
  }

  /**
   A processor finalizes exactly when every registered function compiles and no two share a name, implement
   one command or leave one state.
   */
  lemma {:induction false} FinalizesAsDeclared(schema: Schema, pending: seq<Pending>)
    requires SchemaOk(schema)
    ensures Finalized(schema, pending).Some? <==>
              && (forall i :: 0 <= i < |pending| ==> Compiles(schema, pending[i]))
              && (forall i, j :: 0 <= i < j < |pending| ==>
                    !SameName(pending[i], pending[j]) && !Contend(schema, pending[i], pending[j]))
  {
    hide SchemaOk, Finalized, Fits, Compiles, Agree, SameName, Contend;
    FinalizedExactly(schema, pending);
    forall i | 0 <= i < |pending| ensures Fits(schema, pending[i]) <==> Compiles(schema, pending[i]) {
      FitsDeclared(schema, pending[i]);
    }
    if forall i :: 0 <= i < |pending| ==> Fits(schema, pending[i]) {
      forall i, j | 0 <= i < j < |pending|
        ensures Agree(schema, pending[i], pending[j]) <==>
                  !SameName(pending[i], pending[j]) && !Contend(schema, pending[i], pending[j])
      {
        AgreeDeclared(schema, pending[i], pending[j]);
      }
    }
  }

  // ----- What is stored -----

  ghost predicate HandlerFrom(schema: Schema, p: Pending, c: CommandModel, h: Handler) {
    p.kind.COMMAND? && CompileCommand(schema, p, FunctionName(p)) == Some(h) && h.command.model == c
  }

  ghost predicate InitializerFrom(schema: Schema, p: Pending, c: CommandModel, n: Initializer) {
    p.kind.INITIALIZER? && CompileInitializer(schema, p, FunctionName(p)) == Some(n) && n.command.model == c
  }

  predicate Holds<K, V(==)>(m: map<K, V>, k: K, v: V) {
    k in m && m[k] == v
  }

  lemma {:induction false} RegisterStoresHandler(
    schema: Schema, defs: Definitions, p: Pending, c: CommandModel, h: Handler)
    requires Register(schema, defs, p).Some?
    ensures Holds(Register(schema, defs, p).value.commands.entries, c, h)
            <==> Holds(defs.commands.entries, c, h) || HandlerFrom(schema, p, c, h)
  {
    hide CompileReaction, CompileCommand, CompileInitializer, FunctionName, ValidName;
  }

  lemma {:induction false} RegisterStoresInitializer(
    schema: Schema, defs: Definitions, p: Pending, c: CommandModel, n: Initializer)
    requires Register(schema, defs, p).Some?
    ensures Holds(Register(schema, defs, p).value.initializers.entries, c, n)
            <==> Holds(defs.initializers.entries, c, n) || InitializerFrom(schema, p, c, n)
  {
    hide CompileReaction, CompileCommand, CompileInitializer, FunctionName, ValidName;
  }

  lemma {:induction false} StoredHandlers(schema: Schema, pending: seq<Pending>, c: CommandModel, h: Handler)
    requires RegisterAll(schema, pending).Some?
    ensures Holds(RegisterAll(schema, pending).value.commands.entries, c, h) <==>
            exists i :: 0 <= i < |pending| && HandlerFrom(schema, pending[i], c, h)
  {
    hide Register, HandlerFrom;
    if pending != [] {
      var init, last := pending[..|pending| - 1], pending[|pending| - 1];
      StoredHandlers(schema, init, c, h);
      RegisterStoresHandler(schema, RegisterAll(schema, init).value, last, c, h);
      hide RegisterAll, Holds;
      assert forall i :: 0 <= i < |init| ==> init[i] == pending[i];
    }
  }

  lemma {:induction false} StoredInitializers(schema: Schema, pending: seq<Pending>, c: CommandModel, n: Initializer)
    requires RegisterAll(schema, pending).Some?
    ensures Holds(RegisterAll(schema, pending).value.initializers.entries, c, n) <==>
            exists i :: 0 <= i < |pending| && InitializerFrom(schema, pending[i], c, n)
  {
    hide Register, InitializerFrom;
    if pending != [] {
      var init, last := pending[..|pending| - 1], pending[|pending| - 1];
      StoredInitializers(schema, init, c, n);
      RegisterStoresInitializer(schema, RegisterAll(schema, init).value, last, c, n);
      hide RegisterAll, Holds;
      assert forall i :: 0 <= i < |init| ==> init[i] == pending[i];
    }
  }

  /**
   A finalized processor stores, for each registered function and for nothing else, the reaction, handler or
   initializer that its signature declares, the latter two under the command the function takes.
   */
  lemma {:induction false} DefinitionsDeclared(schema: Schema, pending: seq<Pending>, i: nat)
    requires SchemaOk(schema) && Finalized(schema, pending).Some? && i < |pending|
    ensures var defs, p := Finalized(schema, pending).value, pending[i];
            match p.kind
            case REACTION => exists r :: r in defs.reactions && IsReactionOf(schema, p, r)
            case COMMAND =>
              exists c :: c in defs.commands.entries && IsHandlerOf(schema, p, defs.commands.entries[c])
                          && TakesCommand(p, c)
            case INITIALIZER =>
              exists c :: c in defs.initializers.entries && IsInitializerOf(schema, p, defs.initializers.entries[c])
                          && TakesCommand(p, c)
  {
    FinalizedExactly(schema, pending);
    var p := pending[i];
    assert Fits(schema, p);
    hide RegisterAll, SchemaOk, OneTransitionPerState, Agree, IsReactionOf, IsHandlerOf, IsInitializerOf, TakesCommand;
    match p.kind {
      case REACTION =>
        ReactionDeclared(schema, p);
        RegisterAllExactly(schema, pending);
        var r := CompileReaction(schema, p, FunctionName(p)).value;
        InFlat(ReactionPieces(schema, pending), r);
        assert r in ReactionPieces(schema, pending)[i];
      case COMMAND =>
        CommandDeclared(schema, p);
        var h := CompileCommand(schema, p, FunctionName(p)).value;
        HandlerTakes(schema, p, h);
        StoredHandlers(schema, pending, h.command.model, h);
      case INITIALIZER =>
        InitializerDeclared(schema, p);
        var n := CompileInitializer(schema, p, FunctionName(p)).value;
        InitializerTakes(schema, p, n);
        StoredInitializers(schema, pending, n.command.model, n);
    }
  }

  lemma {:induction false} HandlerTakes(schema: Schema, p: Pending, h: Handler)
    requires IsHandlerOf(schema, p, h)
    ensures TakesCommand(p, h.command.model)
  {}

  lemma {:induction false} InitializerTakes(schema: Schema, p: Pending, n: Initializer)
    requires IsInitializerOf(schema, p, n)
    ensures TakesCommand(p, n.command.model)
  {}

  /** And nothing else is stored. */
  lemma {:induction false} NothingElseStored(schema: Schema, pending: seq<Pending>)
    requires SchemaOk(schema) && Finalized(schema, pending).Some?
    ensures var defs := Finalized(schema, pending).value;
            && (forall r :: r in defs.reactions ==>
                  exists i :: 0 <= i < |pending| && IsReactionOf(schema, pending[i], r))
            && (forall c :: c in defs.commands.entries ==>
                  exists i :: 0 <= i < |pending| && IsHandlerOf(schema, pending[i], defs.commands.entries[c])
                              && TakesCommand(pending[i], c))
            && (forall c :: c in defs.initializers.entries ==>
                  exists i :: 0 <= i < |pending| && IsInitializerOf(schema, pending[i], defs.initializers.entries[c])
                              && TakesCommand(pending[i], c))
  {
    RegisterAllExactly(schema, pending);
    hide RegisterAll, SchemaOk, OneTransitionPerState, IsReactionOf, IsHandlerOf, IsInitializerOf, TakesCommand;
    var defs := Finalized(schema, pending).value;
    forall r | r in defs.reactions ensures exists i :: 0 <= i < |pending| && IsReactionOf(schema, pending[i], r) {
      InFlat(ReactionPieces(schema, pending), r);
      var i :| 0 <= i < |pending| && r in ReactionPieces(schema, pending)[i];
      ReactionDeclared(schema, pending[i]);
    }
    forall c | c in defs.commands.entries
      ensures exists i :: 0 <= i < |pending| && IsHandlerOf(schema, pending[i], defs.commands.entries[c])
                          && TakesCommand(pending[i], c)
    {
      var h := defs.commands.entries[c];
      StoredHandlers(schema, pending, c, h);
      var i :| 0 <= i < |pending| && HandlerFrom(schema, pending[i], c, h);
      CommandDeclared(schema, pending[i]);
      HandlerTakes(schema, pending[i], h);
    }
    forall c | c in defs.initializers.entries
      ensures exists i :: 0 <= i < |pending| && IsInitializerOf(schema, pending[i], defs.initializers.entries[c])
                          && TakesCommand(pending[i], c)
    {
      var n := defs.initializers.entries[c];
      StoredInitializers(schema, pending, c, n);
      var i :| 0 <= i < |pending| && InitializerFrom(schema, pending[i], c, n);
      InitializerDeclared(schema, pending[i]);
      InitializerTakes(schema, pending[i], n);
    }
  }

  // ----- Edges -----

  /** The edge goes from a state the function takes to one it may return, or deletes; creation has no source. */
  ghost predicate Declares(schema: Schema, processor: string, p: Pending, e: GraphEdge) {
    && e.kind == p.kind && e.processor == processor && IsCalled(p, e.function_)
    && (if p.kind.INITIALIZER? then e.source.None? else e.source.Some? && TakesState(schema, p, e.source.value))
    && (if e.deletes then e.target.None? && MayDelete(p) else e.target.Some? && LeadsTo(p, e.target.value))
  }

  ghost predicate MadeFrom(schema: Schema, processor: string, q: Producer, p: Pending) {
    && q.kind == p.kind && q.processor == processor && IsCalled(p, q.name)
    && AsDeclared(schema, p, q.sources, q.targets, q.canDelete)
    && (q.kind.INITIALIZER? ==> !q.canDelete)
  }

  lemma {:induction false} EdgeDeclared(schema: Schema, processor: string, q: Producer, p: Pending, e: GraphEdge)
    requires MadeFrom(schema, processor, q, p)
    ensures e in EdgesOf(q) <==> Declares(schema, processor, p, e)
  {
    CalledByName(p);
    hide TakesState, LeadsTo, MayDelete, IsCalled;
    if q.kind.INITIALIZER? {
    } else {
      hide HandlerEdges;
      EdgeOfHandler(q.kind, q.processor, q.name, q.sources, q.targets, q.canDelete, e);
    }
  }

  lemma {:induction false} ProducerDeclared(schema: Schema, processor: string, p: Pending)
    requires SchemaOk(schema) && Fits(schema, p)
    ensures var q := ProducerFrom(schema, processor, p);
            q.Some? && MadeFrom(schema, processor, q.value, p)
  {
    CalledByName(p);
    var name := FunctionName(p);
    match p.kind {
      case REACTION => ReactionDeclared(schema, p); ReactionOk(schema, processor, p, name);
      case COMMAND => CommandDeclared(schema, p); HandlerOk(schema, processor, p, name);
      case INITIALIZER => InitializerDeclared(schema, p); InitializerOk(schema, processor, p, name);
    }
    hide SchemaOk, CompileReaction, CompileCommand, CompileInitializer, ReactionSignature, CommandSignature;
    hide InitializerSignature, AsDeclared, IsCalled, FunctionName, TakesCommand, ValidName, ProducerOk;
  }

  lemma {:induction false} RegisteredProducers(schema: Schema, processor: string, pending: seq<Pending>, q: Producer)
    requires RegisterAll(schema, pending).Some?
    ensures q in ProducersOf(processor, RegisterAll(schema, pending).value)
            <==> exists i :: 0 <= i < |pending| && ProducerFrom(schema, processor, pending[i]) == Some(q)
  {
    hide Register, ProducersOf, ProducerFrom;
    if pending == [] {
      NoProducers(processor);
    } else {
      var init, last := pending[..|pending| - 1], pending[|pending| - 1];
      var before := RegisterAll(schema, init).value;
      RegisteredProducers(schema, processor, init, q);
      var new_ := RegisterInserts(schema, processor, before, last);
      InsertedMembers(ProducersOf(processor, before),
                      ProducersOf(processor, RegisterAll(schema, pending).value), new_, q);
      if i :| 0 <= i < |pending| && ProducerFrom(schema, processor, pending[i]) == Some(q) {
        assert i < |init| ==> init[i] == pending[i];
      }
      assert forall i :: 0 <= i < |init| ==> init[i] == pending[i];
    }
  }

  lemma {:induction false} NoProducers(processor: string)
    ensures ProducersOf(processor, NOTHING) == []
  {}

  lemma {:induction false} InsertedMembers(before: seq<Producer>, after: seq<Producer>, p: Producer, q: Producer)
    requires Inserted(before, after, p)
    ensures q in after <==> q == p || q in before
  {
    var i :| 0 <= i <= |before| && after == before[..i] + [p] + before[i..];
    assert before == before[..i] + before[i..];
  }

  /** The edges of a finalized processor are exactly those its functions declare. */
  lemma {:induction false} ProcessorEdgesDeclared(p: Processor, pending: seq<Pending>, e: GraphEdge)
    requires SchemaOk(p.schema) && Finalized(p.schema, pending) == Some(p.defs)
    ensures e in ProcessorEdges(p) <==> exists i :: 0 <= i < |pending| && Declares(p.schema, p.name, pending[i], e)
  {
    hide ProcessorEdges, EdgesOfAll, EdgesOf, ProducersOf, ProducerFrom, MadeFrom, Declares, SchemaOk, Fits;
    hide RegisterAll, OneTransitionPerState, Agree;
    var qs := ProducersOf(p.name, p.defs);
    FromProducers(p);
    EdgeHasProducer(qs, e);
    FinalizedExactly(p.schema, pending);
    forall i | 0 <= i < |pending|
      ensures ProducerFrom(p.schema, p.name, pending[i]).Some?
      ensures e in EdgesOf(ProducerFrom(p.schema, p.name, pending[i]).value)
              <==> Declares(p.schema, p.name, pending[i], e)
    {
      ProducerDeclared(p.schema, p.name, pending[i]);
      EdgeDeclared(p.schema, p.name, ProducerFrom(p.schema, p.name, pending[i]).value, pending[i], e);
    }
    if k :| 0 <= k < |qs| && e in EdgesOf(qs[k]) {
      RegisteredProducers(p.schema, p.name, pending, qs[k]);
      var i :| 0 <= i < |pending| && ProducerFrom(p.schema, p.name, pending[i]) == Some(qs[k]);
      assert Declares(p.schema, p.name, pending[i], e);
    }
    if i :| 0 <= i < |pending| && Declares(p.schema, p.name, pending[i], e) {
      var q := ProducerFrom(p.schema, p.name, pending[i]).value;
      RegisteredProducers(p.schema, p.name, pending, q);
      var k :| 0 <= k < |qs| && qs[k] == q;
    }
  }

  // ----- Composing -----

  /** Processors of one-to-one schemas, each finalized from its list of registered functions. */
  ghost predicate FinalizedFrom(ps: seq<Processor>, pendings: seq<seq<Pending>>) {
    && |ps| == |pendings|
    && forall i :: 0 <= i < |ps| ==>
         SchemaOk(ps[i].schema) && Finalized(ps[i].schema, pendings[i]) == Some(ps[i].defs)
  }

  /** The edges of a composed graph are exactly those some function of some processor declares. */
  lemma {:induction false} GraphDeclared(ps: seq<Processor>, pendings: seq<seq<Pending>>, e: GraphEdge)
    requires FinalizedFrom(ps, pendings)
    ensures e in GraphEdges(ps) <==>
              exists i, k :: 0 <= i < |ps| && 0 <= k < |pendings[i]|
                             && Declares(ps[i].schema, ps[i].name, pendings[i][k], e)
  {
    hide GraphEdges, ProcessorEdges, Declares, Finalized, SchemaOk;
    InGraph(ps, e);
    if p :| p in ps && e in ProcessorEdges(p) {
      var i :| 0 <= i < |ps| && ps[i] == p;
      ProcessorEdgesDeclared(ps[i], pendings[i], e);
    }
    if i, k :| 0 <= i < |ps| && 0 <= k < |pendings[i]| && Declares(ps[i].schema, ps[i].name, pendings[i][k], e) {
      ProcessorEdgesDeclared(ps[i], pendings[i], e);
      assert ps[i] in ps;
    }
  }

  // ----- When processors compose -----

  ghost predicate NoneContend(schema: Schema, ps: seq<Pending>, qs: seq<Pending>) {
    forall k, l :: 0 <= k < |ps| && 0 <= l < |qs| ==> !Contend(schema, ps[k], qs[l])
  }

  lemma {:induction false} AcrossPieces<T(!new)>(rel: (T, T) -> bool, xss: seq<seq<T>>, yss: seq<seq<T>>)
    ensures Across(rel, Flat(xss), Flat(yss)) <==>
              forall k, l :: 0 <= k < |xss| && 0 <= l < |yss| ==> Across(rel, xss[k], yss[l])
  {
    hide Flat;
    forall x ensures x in Flat(xss) <==> exists k :: 0 <= k < |xss| && x in xss[k] {
      InFlat(xss, x);
    }
    forall y ensures y in Flat(yss) <==> exists l :: 0 <= l < |yss| && y in yss[l] {
      InFlat(yss, y);
    }
  }

  lemma {:induction false} ReactionsAcross(schema: Schema, ps: seq<Pending>, qs: seq<Pending>)
    requires Registers(schema, ps) && Registers(schema, qs)
    ensures Across(Apart, Flat(ReactionPieces(schema, ps)), Flat(ReactionPieces(schema, qs)))
            <==> forall k, l :: 0 <= k < |ps| && 0 <= l < |qs| ==>
                   !exists m :: Leaves(schema, ps[k], m) && Leaves(schema, qs[l], m)
  {
    hide Flat, Across, Leaves, OwnReactions, Fits, Distinguished;
    var xss, yss := ReactionPieces(schema, ps), ReactionPieces(schema, qs);
    AcrossPieces(Apart, xss, yss);
    forall k, l | 0 <= k < |ps| && 0 <= l < |qs|
      ensures Across(Apart, xss[k], yss[l]) <==> !exists m :: Leaves(schema, ps[k], m) && Leaves(schema, qs[l], m)
    {
      ApartDeclared(schema, ps[k], qs[l]);
      assert xss[k] == OwnReactions(schema, ps[k]) && yss[l] == OwnReactions(schema, qs[l]);
    }
  }

  ghost predicate ClaimedBy(schema: Schema, ps: seq<Pending>, c: CommandModel) {
    exists k :: 0 <= k < |ps| && Claim(schema, ps[k]) == Some(c)
  }

  lemma {:induction false} OwnCommandsClaimed(p: Processor, pending: seq<Pending>, c: CommandModel)
    requires RegisterAll(p.schema, pending) == Some(p.defs)
    ensures c in OwnCommands(p) <==> ClaimedBy(p.schema, pending, c)
  {
    RegisterAllExactly(p.schema, pending);
    hide RegisterAll, Claim, Registers, Flat, ReactionPieces;
    assert c in OwnCommands(p) <==> c in Claimed(p.defs);
  }

  lemma {:induction false} CommandsAcross(p: Processor, q: Processor, ps: seq<Pending>, qs: seq<Pending>)
    requires SchemaOk(p.schema) && p.schema == q.schema
    requires RegisterAll(p.schema, ps) == Some(p.defs) && RegisterAll(q.schema, qs) == Some(q.defs)
    requires Registers(p.schema, ps) && Registers(q.schema, qs)
    ensures Across((c: CommandModel, d: CommandModel) => c != d, OwnCommands(p), OwnCommands(q))
            <==> forall k, l :: 0 <= k < |ps| && 0 <= l < |qs| ==>
                   !exists c :: Implements(ps[k], c) && Implements(qs[l], c)
  {
    hide RegisterAll, Claim, Implements, OwnCommands, Fits, Distinguished, SchemaOk;
    forall c: CommandModel
      ensures c in OwnCommands(p) <==> exists k :: 0 <= k < |ps| && Implements(ps[k], c)
      ensures c in OwnCommands(q) <==> exists l :: 0 <= l < |qs| && Implements(qs[l], c)
    {
      CommandsImplemented(p, ps, c);
      CommandsImplemented(q, qs, c);
    }
    var rel := (c: CommandModel, d: CommandModel) => c != d;
    if k, l, c :| 0 <= k < |ps| && 0 <= l < |qs| && Implements(ps[k], c) && Implements(qs[l], c) {
      assert c in OwnCommands(p) && c in OwnCommands(q) && !rel(c, c);
    }
  }

  lemma {:induction false} CommandsImplemented(p: Processor, pending: seq<Pending>, c: CommandModel)
    requires SchemaOk(p.schema) && RegisterAll(p.schema, pending) == Some(p.defs) && Registers(p.schema, pending)
    ensures c in OwnCommands(p) <==> exists k :: 0 <= k < |pending| && Implements(pending[k], c)
  {
    hide RegisterAll, Claim, Implements, OwnCommands, Fits, Distinguished, SchemaOk;
    OwnCommandsClaimed(p, pending, c);
    forall k | 0 <= k < |pending| ensures Claim(p.schema, pending[k]) == Some(c) <==> Implements(pending[k], c) {
      ClaimDeclared(p.schema, pending[k]);
    }
  }

  lemma {:induction false} CompatibleDeclared(p: Processor, q: Processor, ps: seq<Pending>, qs: seq<Pending>)
    requires SchemaOk(p.schema) && Finalized(p.schema, ps) == Some(p.defs) && Finalized(q.schema, qs) == Some(q.defs)
    ensures Compatible(p, q) <==> p.schema == q.schema && p.name != q.name && NoneContend(p.schema, ps, qs)
  {
    RegisterAllExactly(p.schema, ps);
    RegisterAllExactly(q.schema, qs);
    hide RegisterAll, OneTransitionPerState, SchemaOk, Registers, Claimed, Flat, ReactionPieces, Across, OwnCommands;
    hide Implements, Leaves;
    if p.schema == q.schema {
      ReactionsAcross(p.schema, ps, qs);
      CommandsAcross(p, q, ps, qs);
    }
  }

  lemma {:induction false} FinalizedIsBuilt(p: Processor, pending: seq<Pending>)
    requires Finalized(p.schema, pending) == Some(p.defs)
    ensures Built(p)
  {}

  /**
   Finalized processors compose exactly when there is one, they share a schema, their names differ, and no
   function of one contends with a function of another.
   */
  lemma {:induction false} ComposesAsDeclared(ps: seq<Processor>, pendings: seq<seq<Pending>>)
    requires FinalizedFrom(ps, pendings)
    ensures Composable(ps) <==>
              && ps != []
              && forall i, j :: 0 <= i < j < |ps| ==>
                   && ps[i].schema == ps[j].schema && ps[i].name != ps[j].name
                   && NoneContend(ps[i].schema, pendings[i], pendings[j])
  {
    hide Composable, Finalized, SchemaOk, Compatible, Alone, NoneContend, Built;
    ComposablePiecewise(ps);
    forall i | 0 <= i < |ps| ensures Alone(ps[i]) {
      FinalizedIsBuilt(ps[i], pendings[i]);
      FinalizedComposesAlone(ps[i]);
      ComposablePiecewise([ps[i]]);
      assert [ps[i]][0] == ps[i];
    }
    forall i, j | 0 <= i < j < |ps|
      ensures Compatible(ps[i], ps[j]) <==>
                && ps[i].schema == ps[j].schema && ps[i].name != ps[j].name
                && NoneContend(ps[i].schema, pendings[i], pendings[j])
    {
      CompatibleDeclared(ps[i], ps[j], pendings[i], pendings[j]);
    }
  }
}
