/** Finalizing is decided function by function and pair by pair, whatever the order of registration. */
module Finalization {
  import opened Wrappers
  import opened Schemas
  import opened Processors
  import opened Composition

  /** The function has a usable name and compiles on its own. */
  predicate Fits(schema: Schema, p: Pending) {
    var name := FunctionName(p);
    ValidName(name) &&
    match p.kind
    case REACTION => CompileReaction(schema, p, name).Some?
    case COMMAND => CompileCommand(schema, p, name).Some?
    case INITIALIZER => CompileInitializer(schema, p, name).Some?
  }

  /** The command model a command function or an initializer implements. */
  function Claim(schema: Schema, p: Pending): Option<CommandModel> {
    var name := FunctionName(p);
    match p.kind
    case REACTION => None
    case COMMAND =>
      var handler := CompileCommand(schema, p, name);
      if handler.Some? then Some(handler.value.command.model) else None
    case INITIALIZER =>
      var initializer := CompileInitializer(schema, p, name);
      if initializer.Some? then Some(initializer.value.command.model) else None
  }

  function OwnReactions(schema: Schema, p: Pending): seq<Reaction> {
    var reaction := if p.kind.REACTION? then CompileReaction(schema, p, FunctionName(p)) else None;
    if reaction.Some? then [reaction.value] else []
  }

  ghost function ReactionPieces(schema: Schema, pending: seq<Pending>): seq<seq<Reaction>> {
    seq(|pending|, i requires 0 <= i < |pending| => OwnReactions(schema, pending[i]))
  }

  predicate Distinguished(schema: Schema, p: Pending, q: Pending) {
    FunctionName(p) != FunctionName(q) && (Claim(schema, p).Some? ==> Claim(schema, p) != Claim(schema, q))
  }

  /** Two functions of one processor: names differ, no command is claimed twice, transitions start apart. */
  ghost predicate Agree(schema: Schema, p: Pending, q: Pending) {
    && Distinguished(schema, p, q)
    && Across(Apart, OwnReactions(schema, p), OwnReactions(schema, q))
  }

  ghost predicate Registers(schema: Schema, pending: seq<Pending>) {
    && (forall i :: 0 <= i < |pending| ==> Fits(schema, pending[i]))
    && (forall i, j :: 0 <= i < j < |pending| ==> Distinguished(schema, pending[i], pending[j]))
  }

  ghost function Claimed(defs: Definitions): set<CommandModel> {
    defs.commands.entries.Keys + defs.initializers.entries.Keys
  }

  lemma {:induction false} RegisterExactly(schema: Schema, defs: Definitions, p: Pending)
    ensures var r := Register(schema, defs, p);
            && (r.Some? <==>
                  && Fits(schema, p) && FunctionName(p) !in defs.names
                  && (Claim(schema, p).Some? ==> Claim(schema, p).value !in Claimed(defs)))
            && (r.Some? ==>
                  && r.value.names == defs.names + {FunctionName(p)}
                  && Claimed(r.value)
                     == Claimed(defs) + (if Claim(schema, p).Some? then {Claim(schema, p).value} else {})
                  && r.value.reactions == defs.reactions + OwnReactions(schema, p))
  {
    hide CompileReaction, CompileCommand, CompileInitializer, FunctionName, ValidName;
  }

  lemma {:induction false} RegisterAllExactly(schema: Schema, pending: seq<Pending>)
    ensures var r := RegisterAll(schema, pending);
            && (r.Some? <==> Registers(schema, pending))
            && (r.Some? ==>
                  && r.value.names == (set i | 0 <= i < |pending| :: FunctionName(pending[i]))
                  && Claimed(r.value)
                     == (set i | 0 <= i < |pending| && Claim(schema, pending[i]).Some?
                           :: Claim(schema, pending[i]).value)
                  && r.value.reactions == Flat(ReactionPieces(schema, pending)))
  {
    hide Register, Fits, FunctionName, Claim, OwnReactions, Claimed;
    if pending == [] {
      NothingClaimed();
    } else {
      var init, last := pending[..|pending| - 1], pending[|pending| - 1];
      RegisterAllExactly(schema, init);
      assert ReactionPieces(schema, pending)[..|init|] == ReactionPieces(schema, init);
      var before := RegisterAll(schema, init);
      if before.Some? {
        RegisterExactly(schema, before.value, last);
      }
    }
  }

  lemma {:induction false} NothingClaimed()
    ensures Claimed(NOTHING) == {} && NOTHING.names == {} && NOTHING.reactions == []
  {}

  lemma {:induction false} PiecesApart(schema: Schema, pending: seq<Pending>)
    ensures OneTransitionPerState(Flat(ReactionPieces(schema, pending))) <==>
              forall i, j :: 0 <= i < j < |pending| ==>
                Across(Apart, OwnReactions(schema, pending[i]), OwnReactions(schema, pending[j]))
  {
    var pieces := ReactionPieces(schema, pending);
    hide Across, Flat, CompileReaction, FunctionName;
    PairwiseFlat(Apart, pieces);
    assert forall i :: 0 <= i < |pieces| ==> |pieces[i]| <= 1;
    assert forall i :: 0 <= i < |pieces| ==> pieces[i] == OwnReactions(schema, pending[i]);
    assert OneTransitionPerState(Flat(pieces)) <==> Pairwise(Apart, Flat(pieces));
  }

  /** A processor finalizes exactly when each of its functions compiles and every two of them agree. */
  lemma {:induction false} FinalizedExactly(schema: Schema, pending: seq<Pending>)
    ensures Finalized(schema, pending).Some? <==>
              && (forall i :: 0 <= i < |pending| ==> Fits(schema, pending[i]))
              && (forall i, j :: 0 <= i < j < |pending| ==> Agree(schema, pending[i], pending[j]))
  {
    RegisterAllExactly(schema, pending);
    PiecesApart(schema, pending);
    hide RegisterAll, Flat, OwnReactions, Across, Pairwise, Apart, Fits, Distinguished, OneTransitionPerState;
  }
}
