/** Composition is decided pair by pair, and neither choice nor order of processors matters beyond that. */
module Composition {
  import opened Sorting
  import opened Schemas
  import opened Processors
  import opened Composer

  // ----- Pairwise relations over a concatenation -----

  ghost predicate Pairwise<T>(rel: (T, T) -> bool, xs: seq<T>) {
    forall i, j :: 0 <= i < j < |xs| ==> rel(xs[i], xs[j])
  }

  ghost predicate Across<T(!new)>(rel: (T, T) -> bool, xs: seq<T>, ys: seq<T>) {
    forall x, y :: x in xs && y in ys ==> rel(x, y)
  }

  ghost function Flat<T>(xss: seq<seq<T>>): seq<T> {
    if xss == [] then [] else Flat(xss[..|xss| - 1]) + xss[|xss| - 1]
  }

  lemma {:induction false} PairwiseConcat<T(!new)>(rel: (T, T) -> bool, xs: seq<T>, ys: seq<T>)
    ensures Pairwise(rel, xs + ys) <==> Pairwise(rel, xs) && Pairwise(rel, ys) && Across(rel, xs, ys)
  {
    var zs := xs + ys;
    if Pairwise(rel, zs) {
      assert forall i, j :: 0 <= i < j < |xs| ==> xs[i] == zs[i] && xs[j] == zs[j];
      forall i, j | 0 <= i < j < |ys| ensures rel(ys[i], ys[j]) {
        assert zs[|xs| + i] == ys[i] && zs[|xs| + j] == ys[j];
      }
      forall x, y | x in xs && y in ys ensures rel(x, y) {
        var i :| 0 <= i < |xs| && xs[i] == x;
        var j :| 0 <= j < |ys| && ys[j] == y;
        assert zs[i] == x && zs[|xs| + j] == y;
      }
    }
  }

  lemma {:induction false} InFlat<T>(xss: seq<seq<T>>, x: T)
    ensures x in Flat(xss) <==> exists i :: 0 <= i < |xss| && x in xss[i]
  {
    if xss != [] {
      InFlat(xss[..|xss| - 1], x);
      if i :| 0 <= i < |xss| && x in xss[i] {
        assert i < |xss| - 1 ==> x in xss[..|xss| - 1][i];
      }
    }
  }

  lemma {:induction false} AcrossFlat<T(!new)>(rel: (T, T) -> bool, xss: seq<seq<T>>, ys: seq<T>)
    ensures Across(rel, Flat(xss), ys) <==> forall i :: 0 <= i < |xss| ==> Across(rel, xss[i], ys)
  {
    hide Flat;
    forall x ensures x in Flat(xss) <==> exists i :: 0 <= i < |xss| && x in xss[i] {
      InFlat(xss, x);
    }
  }

  ghost predicate PieceByPiece<T(!new)>(rel: (T, T) -> bool, xss: seq<seq<T>>) {
    && (forall i :: 0 <= i < |xss| ==> Pairwise(rel, xss[i]))
    && (forall i, j :: 0 <= i < j < |xss| ==> Across(rel, xss[i], xss[j]))
  }

  /** A pairwise relation on a concatenation is decided within the pieces and between every two of them. */
  lemma {:induction false} PairwiseFlat<T(!new)>(rel: (T, T) -> bool, xss: seq<seq<T>>)
    ensures Pairwise(rel, Flat(xss)) <==> PieceByPiece(rel, xss)
  {
    if xss != [] {
      var init, last := xss[..|xss| - 1], xss[|xss| - 1];
      hide Pairwise, Across;
      PairwiseFlat(rel, init);
      PairwiseConcat(rel, Flat(init), last);
      AcrossFlat(rel, init, last);
      assert PieceByPiece(rel, xss) <==>
             && PieceByPiece(rel, init) && Pairwise(rel, last)
             && forall i :: 0 <= i < |init| ==> Across(rel, init[i], last)
      by {
        assert forall i :: 0 <= i < |init| ==> init[i] == xss[i];
      }
    } else {
      assert Flat(xss) == [];
    }
  }

  // ----- Processors -----

  predicate Apart(r: Reaction, q: Reaction) {
    r.Transitioning() && q.Transitioning() ==> r.sources !! q.sources
  }

  ghost predicate Alone(p: Processor) {
    OneTransitionPerState(p.defs.reactions) && NoDup(OwnCommands(p))
  }

  ghost predicate Compatible(p: Processor, q: Processor) {
    && p.schema == q.schema && p.name != q.name
    && Across(Apart, p.defs.reactions, q.defs.reactions)
    && Across((c: CommandModel, d: CommandModel) => c != d, OwnCommands(p), OwnCommands(q))
  }

  lemma {:induction false} CompatibleSymmetric(p: Processor, q: Processor)
    ensures Compatible(p, q) <==> Compatible(q, p)
  {
    hide OwnCommands;
  }

  ghost function ReactionLists(ps: seq<Processor>): seq<seq<Reaction>> {
    seq(|ps|, i requires 0 <= i < |ps| => ps[i].defs.reactions)
  }

  ghost function CommandLists(ps: seq<Processor>): seq<seq<CommandModel>> {
    seq(|ps|, i requires 0 <= i < |ps| => OwnCommands(ps[i]))
  }

  lemma {:induction false} ReactionsFlat(ps: seq<Processor>)
    ensures AllReactions(ps) == Flat(ReactionLists(ps))
  {
    if ps != [] {
      ReactionsFlat(ps[..|ps| - 1]);
      assert ReactionLists(ps)[..|ps| - 1] == ReactionLists(ps[..|ps| - 1]);
    }
  }

  lemma {:induction false} CommandsFlat(ps: seq<Processor>)
    ensures AllCommands(ps) == Flat(CommandLists(ps))
  {
    if ps != [] {
      CommandsFlat(ps[..|ps| - 1]);
      assert CommandLists(ps)[..|ps| - 1] == CommandLists(ps[..|ps| - 1]);
    }
  }

  ghost predicate ReactionsFit(ps: seq<Processor>) {
    && (forall i :: 0 <= i < |ps| ==> OneTransitionPerState(ps[i].defs.reactions))
    && (forall i, j :: 0 <= i < j < |ps| ==> Across(Apart, ps[i].defs.reactions, ps[j].defs.reactions))
  }

  lemma {:induction false} ReactionsPiecewise(ps: seq<Processor>)
    ensures OneTransitionPerState(AllReactions(ps)) <==> ReactionsFit(ps)
  {
    var rs := ReactionLists(ps);
    ReactionsFlat(ps);
    PairwiseFlat(Apart, rs);
    hide AllReactions, Flat, Across;
    assert forall xs: seq<Reaction> :: Pairwise(Apart, xs) <==> OneTransitionPerState(xs);
    hide Pairwise, OneTransitionPerState;
    assert forall i :: 0 <= i < |ps| ==> rs[i] == ps[i].defs.reactions;
    assert PieceByPiece(Apart, rs) <==> ReactionsFit(ps);
  }

  ghost predicate CommandsFit(ps: seq<Processor>) {
    && (forall i :: 0 <= i < |ps| ==> NoDup(OwnCommands(ps[i])))
    && (forall i, j :: 0 <= i < j < |ps| ==>
          Across((c: CommandModel, d: CommandModel) => c != d, OwnCommands(ps[i]), OwnCommands(ps[j])))
  }

  lemma {:induction false} CommandsPiecewise(ps: seq<Processor>)
    ensures NoDup(AllCommands(ps)) <==> CommandsFit(ps)
  {
    var cs := CommandLists(ps);
    var rel := (c: CommandModel, d: CommandModel) => c != d;
    CommandsFlat(ps);
    PairwiseFlat(rel, cs);
    hide AllCommands, Flat, OwnCommands;
    assert forall xs: seq<CommandModel> :: Pairwise(rel, xs) <==> NoDup(xs);
    hide Pairwise, NoDup;
    assert forall i :: 0 <= i < |ps| ==> cs[i] == OwnCommands(ps[i]);
    assert PieceByPiece(rel, cs) <==> CommandsFit(ps);
  }

  ghost predicate Piecewise(ps: seq<Processor>) {
    && ps != []
    && (forall i :: 0 <= i < |ps| ==> Alone(ps[i]))
    && (forall i, j :: 0 <= i < j < |ps| ==> Compatible(ps[i], ps[j]))
  }

  lemma {:induction false} ComposablePiecewise(ps: seq<Processor>)
    ensures Composable(ps) <==> Piecewise(ps)
  {
    ReactionsPiecewise(ps);
    CommandsPiecewise(ps);
    hide OneTransitionPerState, AllReactions, AllCommands, Across, OwnCommands, Apart;
    assert NoDup(Names(ps)) <==> forall i, j :: 0 <= i < j < |ps| ==> ps[i].name != ps[j].name by {
      assert |Names(ps)| == |ps| && forall i :: 0 <= i < |ps| ==> Names(ps)[i] == ps[i].name;
    }
    hide NoDup, Names;
    if Piecewise(ps) {
      assert forall i :: 0 < i < |ps| ==> Compatible(ps[0], ps[i]);
    }
  }

  /** A list composes exactly when each member composes alone and every two positions compose together. */
  lemma {:induction false} CompositionIsPairwise(ps: seq<Processor>)
    ensures Composable(ps) <==>
              && ps != []
              && (forall i :: 0 <= i < |ps| ==> Composable([ps[i]]))
              && (forall i, j :: 0 <= i < j < |ps| ==> Composable([ps[i], ps[j]]))
  {
    hide Composable, Alone, Compatible;
    ComposablePiecewise(ps);
    forall p: Processor ensures Composable([p]) <==> Alone(p) {
      ComposablePiecewise([p]);
      assert [p][0] == p;
    }
    forall p: Processor, q: Processor ensures Composable([p, q]) <==> Alone(p) && Alone(q) && Compatible(p, q) {
      ComposablePiecewise([p, q]);
      assert [p, q][0] == p && [p, q][1] == q;
    }
  }

  // ----- Choosing and reordering -----

  lemma {:induction false} InGraph(ps: seq<Processor>, e: GraphEdge)
    ensures e in GraphEdges(ps) <==> exists p :: p in ps && e in ProcessorEdges(p)
  {
    hide ProcessorEdges;
    if ps != [] {
      var init := ps[..|ps| - 1];
      InGraph(init, e);
      assert forall p :: p in ps <==> p in init || p == ps[|ps| - 1] by {
        assert ps == init + [ps[|ps| - 1]];
      }
    }
  }

  lemma {:induction false} ComposableNoDup(ps: seq<Processor>)
    requires Composable(ps)
    ensures NoDup(ps)
  {
    forall i, j | 0 <= i < j < |ps| ensures ps[i] != ps[j] {
      assert Names(ps)[i] != Names(ps)[j];
    }
  }

  /** Every non-empty selection from an accepted list, in any order, is accepted, with no new edges. */
  lemma {:induction false} SelectionComposes(ps: seq<Processor>, qs: seq<Processor>)
    requires Composable(ps)
    requires qs != [] && NoDup(qs) && forall q :: q in qs ==> q in ps
    ensures Composable(qs) && GraphEdges(qs) <= GraphEdges(ps)
  {
    hide Composable, Alone, Compatible, GraphEdges, ProcessorEdges;
    ComposablePiecewise(ps);
    ComposablePiecewise(qs);
    forall i, j | 0 <= i < j < |qs| ensures Compatible(qs[i], qs[j]) {
      assert qs[i] in ps && qs[j] in ps && qs[i] != qs[j];
      var k :| 0 <= k < |ps| && ps[k] == qs[i];
      var l :| 0 <= l < |ps| && ps[l] == qs[j];
      CompatibleSymmetric(ps[k], ps[l]);
    }
    forall i | 0 <= i < |qs| ensures Alone(qs[i]) {
      assert qs[i] in ps;
    }
    forall e | e in GraphEdges(qs) ensures e in GraphEdges(ps) {
      InGraph(qs, e);
      InGraph(ps, e);
    }
  }

  lemma {:induction false} NoDupIsPermuted<T>(xs: seq<T>, ys: seq<T>)
    requires NoDup(xs) && multiset(xs) == multiset(ys)
    ensures NoDup(ys)
  {
    forall i, j | 0 <= i < j < |ys| ensures ys[i] != ys[j] {
      OccursOnce(xs, ys[i]);
      if ys[i] == ys[j] {
        OccursTwice(ys, i, j);
      }
    }
  }

  lemma {:induction false} OccursOnce<T>(xs: seq<T>, x: T)
    requires NoDup(xs)
    ensures multiset(xs)[x] <= 1
  {
    if xs != [] {
      OccursOnce(xs[1..], x);
      assert xs == [xs[0]] + xs[1..];
      if x == xs[0] {
        assert x !in xs[1..];
        assert x !in multiset(xs[1..]);
      }
    }
  }

  /** Reordering the processors changes neither acceptance nor the edges of the graph. */
  lemma {:induction false} OrderIsImmaterial(ps: seq<Processor>, qs: seq<Processor>)
    requires multiset(ps) == multiset(qs)
    ensures Composable(ps) <==> Composable(qs)
    ensures GraphEdges(ps) == GraphEdges(qs)
  {
    hide Composable, GraphEdges, ProcessorEdges;
    SameMembers(ps, qs);
    forall e ensures e in GraphEdges(ps) <==> e in GraphEdges(qs) {
      InGraph(ps, e);
      InGraph(qs, e);
    }
    if Composable(ps) {
      Reordered(ps, qs);
    }
    if Composable(qs) {
      Reordered(qs, ps);
    }
  }

  lemma {:induction false} Reordered(ps: seq<Processor>, qs: seq<Processor>)
    requires Composable(ps) && multiset(ps) == multiset(qs)
    ensures Composable(qs)
  {
    SameMembers(ps, qs);
    ComposableNoDup(ps);
    NoDupIsPermuted(ps, qs);
    assert ps[0] in qs;
    SelectionComposes(ps, qs);
  }
}
