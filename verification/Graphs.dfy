/** The order in which a composed graph is rendered, and the nodes its edges refer to. */
module Graphs {
  import opened Wrappers
  import opened ByteStrings
  import opened Sorting
  import opened Schemas
  import opened Processors
  import opened Composer
  import opened Edges

  // ----- Tuples -----

  /** How Python compares tuples; a number is a component of length one, a string its code points. */
  predicate TupleLess(a: seq<seq<int>>, b: seq<seq<int>>) {
    b != [] && (a == [] || Less(a[0], b[0]) || (a[0] == b[0] && TupleLess(a[1..], b[1..])))
  }

  lemma {:induction false} TupleIrreflexive(a: seq<seq<int>>)
    ensures !TupleLess(a, a)
  {
    if a != [] {
      LessIrreflexive(a[0]);
      TupleIrreflexive(a[1..]);
    }
  }

  lemma {:induction false} TupleTransitive(a: seq<seq<int>>, b: seq<seq<int>>, c: seq<seq<int>>)
    requires TupleLess(a, b) && TupleLess(b, c)
    ensures TupleLess(a, c)
  {
    hide Less;
    if a != [] {
      if Less(a[0], b[0]) && Less(b[0], c[0]) {
        LessTransitive(a[0], b[0], c[0]);
      } else if a[0] == b[0] == c[0] {
        TupleTransitive(a[1..], b[1..], c[1..]);
      }
    }
  }

  lemma {:induction false} TupleTotal(a: seq<seq<int>>, b: seq<seq<int>>)
    ensures TupleLess(a, b) || a == b || TupleLess(b, a)
  {
    hide Less;
    if a != [] && b != [] {
      LessTotal(a[0], b[0]);
      if a[0] == b[0] {
        TupleTotal(a[1..], b[1..]);
        assert a == [a[0]] + a[1..] && b == [b[0]] + b[1..];
      }
    }
  }

  lemma {:induction false} TuplesStrictTotal()
    ensures StrictTotal((a, b) => TupleLess(a, b))
  {
    hide TupleLess;
    var less := (a, b) => TupleLess(a, b);
    forall a ensures !less(a, a) {
      TupleIrreflexive(a);
    }
    forall a, b, c | less(a, b) && less(b, c) ensures less(a, c) {
      TupleTransitive(a, b, c);
    }
    forall a, b ensures less(a, b) || a == b || less(b, a) {
      TupleTotal(a, b);
    }
  }

  // ----- The sort key -----

  function StateValues(schema: Schema): seq<StateModel> {
    var states := schema.states;
    seq(|states.order|, i requires 0 <= i < |states.order| => states.entries[states.order[i]])
  }

  /** The number a model is listed under; a later listing would replace an earlier one. */
  function Position(models: seq<StateModel>, model: StateModel): Option<nat> {
    if models == [] then None
    else if models[|models| - 1] == model then Some(|models| - 1)
    else Position(models[..|models| - 1], model)
  }

  function Codes(s: string): seq<int> {
    seq(|s|, i requires 0 <= i < |s| => s[i] as int)
  }

  function KindValue(kind: ProducerKind): string {
    match kind
    case REACTION => "reaction"
    case COMMAND => "command"
    case INITIALIZER => "initializer"
  }

  predicate Placed(models: seq<StateModel>, e: GraphEdge) {
    && (e.source.Some? ==> Position(models, e.source.value).Some?)
    && (e.target.Some? ==> Position(models, e.target.value).Some?)
  }

  function Place(models: seq<StateModel>, model: Option<StateModel>, absent: int): int {
    if model.None? then absent
    else
      var position := Position(models, model.value);
      if position.Some? then position.value else absent
  }

  function SortKey(models: seq<StateModel>, e: GraphEdge): seq<seq<int>> {
    [[Place(models, e.source, -1)], [Place(models, e.target, |models|)], [if e.deletes then 1 else 0],
     Codes(e.processor), Codes(e.function_), Codes(KindValue(e.kind))]
  }

  /** The edges in rendering order, from any listing of them; none if an endpoint has no place. */
  function SortedEdges(schema: Schema, edges: seq<GraphEdge>): Option<seq<GraphEdge>> {
    var models := StateValues(schema);
    if exists i :: 0 <= i < |edges| && !Placed(models, edges[i]) then None
    else Some(Sorted((e, f) => TupleLess(SortKey(models, e), SortKey(models, f)), edges))
  }

  // ----- Positions -----

  lemma {:induction false} PositionFinds(models: seq<StateModel>, model: StateModel)
    ensures var p := Position(models, model);
            if p.Some? then p.value < |models| && models[p.value] == model else model !in models
  {
    if models != [] && models[|models| - 1] != model {
      PositionFinds(models[..|models| - 1], model);
      assert models == models[..|models| - 1] + [models[|models| - 1]];
    }
  }

  lemma {:induction false} RegisteredIsListed(schema: Schema, model: StateModel)
    ensures ContainsState(schema, model) <==> model in StateValues(schema)
  {
    var states := schema.states;
    if ContainsState(schema, model) {
      var d :| d in states.entries && states.entries[d] == model;
      assert d in states.order;
      var i :| 0 <= i < |states.order| && states.order[i] == d;
      assert StateValues(schema)[i] == model;
    }
  }

  lemma {:induction false} CodesInjective(s: string, t: string)
    requires Codes(s) == Codes(t)
    ensures s == t
  {
    assert |s| == |Codes(s)| == |Codes(t)| == |t|;
    forall i | 0 <= i < |s| ensures s[i] == t[i] {
      assert Codes(s)[i] == Codes(t)[i];
    }
  }

  lemma {:induction false} KindInjective(k: ProducerKind, l: ProducerKind)
    requires Codes(KindValue(k)) == Codes(KindValue(l))
    ensures k == l
  {
    assert |KindValue(REACTION)| == 8 && |KindValue(COMMAND)| == 7 && |KindValue(INITIALIZER)| == 11;
    assert |KindValue(k)| == |Codes(KindValue(k))| == |KindValue(l)|;
  }

  lemma {:induction false} PlaceInjective(
    models: seq<StateModel>, a: Option<StateModel>, b: Option<StateModel>, absent: int)
    requires absent < 0 || absent >= |models|
    requires a.Some? ==> Position(models, a.value).Some?
    requires b.Some? ==> Position(models, b.value).Some?
    requires Place(models, a, absent) == Place(models, b, absent)
    ensures a == b
  {
    hide Position;
    if a.Some? { PositionFinds(models, a.value); }
    if b.Some? { PositionFinds(models, b.value); }
  }

  /** Two edges with the same sort key are the same edge. */
  lemma {:induction false} SortKeyInjective(models: seq<StateModel>, e: GraphEdge, f: GraphEdge)
    requires Placed(models, e) && Placed(models, f)
    requires SortKey(models, e) == SortKey(models, f)
    ensures e == f
  {
    hide Place, Position, Codes, KindValue;
    var k, l := SortKey(models, e), SortKey(models, f);
    assert k[0] == l[0] && k[1] == l[1] && k[2] == l[2] && k[3] == l[3] && k[4] == l[4] && k[5] == l[5];
    assert k[0][0] == l[0][0] && k[1][0] == l[1][0] && k[2][0] == l[2][0];
    PlaceInjective(models, e.source, f.source, -1);
    PlaceInjective(models, e.target, f.target, |models|);
    CodesInjective(e.processor, f.processor);
    CodesInjective(e.function_, f.function_);
    KindInjective(e.kind, f.kind);
  }

  lemma {:induction false} GraphEdgesPlaced(ps: seq<Processor>, e: GraphEdge)
    requires Composable(ps) && AllBuilt(ps) && e in GraphEdges(ps)
    ensures Placed(StateValues(ps[0].schema), e)
  {
    EdgesAreSound(ps, e);
    hide Composable, AllBuilt, GraphEdges, ContainsState, StateValues, Position;
    var schema := ps[0].schema;
    if e.source.Some? {
      RegisteredIsListed(schema, e.source.value);
      PositionFinds(StateValues(schema), e.source.value);
    }
    if e.target.Some? {
      RegisteredIsListed(schema, e.target.value);
      PositionFinds(StateValues(schema), e.target.value);
    }
  }

  // ----- One rendering order -----

  ghost predicate Lists(edges: set<GraphEdge>, xs: seq<GraphEdge>) {
    NoDup(xs) && forall e :: e in xs <==> e in edges
  }

  lemma {:induction false} KeysOfEnumeration(
    models: seq<StateModel>, key: GraphEdge -> seq<seq<int>>, edges: set<GraphEdge>, xs: seq<GraphEdge>)
    requires forall e :: key(e) == SortKey(models, e)
    requires Lists(edges, xs) && forall e :: e in edges ==> Placed(models, e)
    ensures NoDup(Keys(key, xs))
    ensures forall k :: k in Keys(key, xs) <==> exists e :: e in edges && key(e) == k
  {
    hide SortKey, Placed;
    var ks := Keys(key, xs);
    forall i, j | 0 <= i < j < |ks| ensures ks[i] != ks[j] {
      assert xs[i] in edges && xs[j] in edges && xs[i] != xs[j];
      if ks[i] == ks[j] {
        SortKeyInjective(models, xs[i], xs[j]);
      }
    }
    forall e | e in edges ensures key(e) in ks {
      assert e in xs;
      var i :| 0 <= i < |xs| && xs[i] == e;
      assert ks[i] == key(e);
    }
    forall k | k in ks ensures exists e :: e in edges && key(e) == k {
      var i :| 0 <= i < |ks| && ks[i] == k;
      assert xs[i] in edges;
    }
  }

  lemma {:induction false} SameKeysSameEdges(
    models: seq<StateModel>, key: GraphEdge -> seq<seq<int>>, xs: seq<GraphEdge>, ys: seq<GraphEdge>)
    requires forall e :: key(e) == SortKey(models, e)
    requires forall e :: e in xs || e in ys ==> Placed(models, e)
    requires Keys(key, xs) == Keys(key, ys)
    ensures xs == ys
  {
    hide SortKey, Placed;
    assert |xs| == |Keys(key, xs)| == |ys|;
    forall i | 0 <= i < |xs| ensures xs[i] == ys[i] {
      assert Keys(key, xs)[i] == Keys(key, ys)[i];
      SortKeyInjective(models, xs[i], ys[i]);
    }
  }

  lemma {:induction false} SortedSame(
    models: seq<StateModel>, less: (GraphEdge, GraphEdge) -> bool,
    edges: set<GraphEdge>, xs: seq<GraphEdge>, ys: seq<GraphEdge>)
    requires forall e, f :: less(e, f) == TupleLess(SortKey(models, e), SortKey(models, f))
    requires Lists(edges, xs) && Lists(edges, ys) && forall e :: e in edges ==> Placed(models, e)
    ensures Sorted(less, xs) == Sorted(less, ys) && Ascending(less, Sorted(less, xs))
  {
    hide SortKey, Placed, TupleLess, Sorted, Keys;
    var key := e => SortKey(models, e);
    var tuples := (a, b) => TupleLess(a, b);
    KeysOfEnumeration(models, key, edges, xs);
    KeysOfEnumeration(models, key, edges, ys);
    TuplesStrictTotal();
    SortedAscends(tuples, Keys(key, xs));
    SortedAscends(tuples, Keys(key, ys));
    AscendingUnique(tuples, Sorted(tuples, Keys(key, xs)), Sorted(tuples, Keys(key, ys)));
    SortByKey(key, less, tuples, xs);
    SortByKey(key, less, tuples, ys);
    SameMembers(Sorted(less, xs), xs);
    SameMembers(Sorted(less, ys), ys);
    SameKeysSameEdges(models, key, Sorted(less, xs), Sorted(less, ys));
    AscendingByKey(key, less, tuples, Sorted(less, xs));
  }

  /** However the edge set is iterated, the edges of a composed graph come out in one order, all of them once. */
  lemma {:induction false} RenderingIsCanonical(ps: seq<Processor>, xs: seq<GraphEdge>, ys: seq<GraphEdge>)
    requires Composable(ps) && AllBuilt(ps)
    requires Lists(GraphEdges(ps), xs) && Lists(GraphEdges(ps), ys)
    ensures var r, models := SortedEdges(ps[0].schema, xs), StateValues(ps[0].schema);
            && r.Some? && r == SortedEdges(ps[0].schema, ys) && multiset(r.value) == multiset(xs)
            && (forall i, j :: 0 <= i < j < |r.value| ==>
                  TupleLess(SortKey(models, r.value[i]), SortKey(models, r.value[j])))
  {
    hide AllBuilt, GraphEdges, Placed, SortKey, TupleLess, Sorted, StateValues;
    hide OneTransitionPerState, AllReactions, AllCommands;
    var models := StateValues(ps[0].schema);
    forall e | e in GraphEdges(ps) ensures Placed(models, e) {
      GraphEdgesPlaced(ps, e);
    }
    SortedSame(models, (e, f) => TupleLess(SortKey(models, e), SortKey(models, f)), GraphEdges(ps), xs, ys);
    assert forall i :: 0 <= i < |xs| ==> xs[i] in GraphEdges(ps);
    assert forall i :: 0 <= i < |ys| ==> ys[i] in GraphEdges(ps);
  }

  // ----- What the order is -----

  /** `a` is listed before `b`; an absent model comes first or last. */
  ghost predicate Listed(models: seq<StateModel>, a: Option<StateModel>, b: Option<StateModel>, absentFirst: bool) {
    if a.None? || b.None? then a != b && (a.None? <==> absentFirst)
    else exists i, j :: 0 <= i < j < |models| && models[i] == a.value && models[j] == b.value
  }

  /** Order of texts: at the first difference the smaller code point, and a proper prefix, comes first. */
  ghost predicate TextBefore(s: string, t: string) {
    exists k :: 0 <= k <= |s| && k < |t| && s[..k] == t[..k] && (k == |s| || s[k] < t[k])
  }

  /** First by source, creation before all states; then by target, deletion after all; then by owner and kind. */
  ghost predicate RenderedBefore(models: seq<StateModel>, e: GraphEdge, f: GraphEdge) {
    if e.source != f.source then Listed(models, e.source, f.source, true)
    else if e.target != f.target then Listed(models, e.target, f.target, false)
    else if e.deletes != f.deletes then f.deletes
    else if e.processor != f.processor then TextBefore(e.processor, f.processor)
    else if e.function_ != f.function_ then TextBefore(e.function_, f.function_)
    else if e.kind.COMMAND? then !f.kind.COMMAND?
    else e.kind.INITIALIZER? && f.kind.REACTION?
  }

  lemma {:induction false} CodesBefore(s: string, t: string)
    ensures Less(Codes(s), Codes(t)) <==> TextBefore(s, t)
  {
    if s != [] && t != [] && s[0] == t[0] {
      CodesBefore(s[1..], t[1..]);
      assert Codes(s)[1..] == Codes(s[1..]) && Codes(t)[1..] == Codes(t[1..]);
      if TextBefore(s[1..], t[1..]) {
        var k :| 0 <= k <= |s[1..]| && k < |t[1..]| && s[1..][..k] == t[1..][..k]
                 && (k == |s[1..]| || s[1..][k] < t[1..][k]);
        assert s[..k + 1] == [s[0]] + s[1..][..k] && t[..k + 1] == [t[0]] + t[1..][..k];
      }
      if TextBefore(s, t) {
        var k :| 0 <= k <= |s| && k < |t| && s[..k] == t[..k] && (k == |s| || s[k] < t[k]);
        assert k > 0;
        assert s[1..][..k - 1] == s[..k][1..] && t[1..][..k - 1] == t[..k][1..];
      }
    } else if t != [] {
      assert s == [] || s[0] != t[0];
      if TextBefore(s, t) {
        var k :| 0 <= k <= |s| && k < |t| && s[..k] == t[..k] && (k == |s| || s[k] < t[k]);
        if k > 0 {
          assert s[..k][0] == s[0] && t[..k][0] == t[0];
        }
      }
      assert s[..0] == t[..0];
    }
  }

  lemma {:induction false} ListedByPlace(
    models: seq<StateModel>, a: Option<StateModel>, b: Option<StateModel>, absentFirst: bool)
    requires NoDup(models)
    requires a.Some? ==> Position(models, a.value).Some?
    requires b.Some? ==> Position(models, b.value).Some?
    ensures var absent := if absentFirst then -1 else |models|;
            Place(models, a, absent) < Place(models, b, absent) <==> Listed(models, a, b, absentFirst)
  {
    hide Position;
    if a.Some? { PositionFinds(models, a.value); }
    if b.Some? { PositionFinds(models, b.value); }
    if a.Some? && b.Some? {
      var p, q := Position(models, a.value).value, Position(models, b.value).value;
      if i, j :| 0 <= i < j < |models| && models[i] == a.value && models[j] == b.value {
        assert i == p && j == q;
      }
    }
  }

  lemma {:induction false} TupleStep(a: seq<int>, as_: seq<seq<int>>, b: seq<int>, bs: seq<seq<int>>)
    ensures TupleLess([a] + as_, [b] + bs) <==> if a != b then Less(a, b) else TupleLess(as_, bs)
  {
    assert ([a] + as_)[1..] == as_ && ([b] + bs)[1..] == bs;
    LessIrreflexive(a);
  }

  lemma {:induction false} SingleLess(x: int, y: int)
    ensures Less([x], [y]) <==> x < y
  {
    assert [x][1..] == [] && [y][1..] == [];
  }

  lemma {:induction false} KindBefore(k: ProducerKind, l: ProducerKind)
    ensures TupleLess([Codes(KindValue(k))], [Codes(KindValue(l))]) <==>
              if k.COMMAND? then !l.COMMAND? else k.INITIALIZER? && l.REACTION?
  {
    var a, b := Codes(KindValue(k)), Codes(KindValue(l));
    assert [a] == [a] + [] && [b] == [b] + [];
    TupleStep(a, [], b, []);
    assert a[0] == KindValue(k)[0] as int && b[0] == KindValue(l)[0] as int;
    LessIrreflexive(a);
  }

  lemma {:induction false} OwnerBefore(e: GraphEdge, f: GraphEdge)
    ensures var a := [Codes(e.processor), Codes(e.function_), Codes(KindValue(e.kind))];
            var b := [Codes(f.processor), Codes(f.function_), Codes(KindValue(f.kind))];
            TupleLess(a, b) <==>
              if e.processor != f.processor then TextBefore(e.processor, f.processor)
              else if e.function_ != f.function_ then TextBefore(e.function_, f.function_)
              else if e.kind.COMMAND? then !f.kind.COMMAND?
              else e.kind.INITIALIZER? && f.kind.REACTION?
  {
    hide TupleLess, Codes, TextBefore, KindValue;
    var p, q, k := Codes(e.processor), Codes(e.function_), Codes(KindValue(e.kind));
    var u, v, l := Codes(f.processor), Codes(f.function_), Codes(KindValue(f.kind));
    if p == u { CodesInjective(e.processor, f.processor); }
    if q == v { CodesInjective(e.function_, f.function_); }
    CodesBefore(e.processor, f.processor);
    CodesBefore(e.function_, f.function_);
    assert [p, q, k] == [p] + ([q] + [k]) && [u, v, l] == [u] + ([v] + [l]);
    TupleStep(p, [q] + [k], u, [v] + [l]);
    TupleStep(q, [k], v, [l]);
    KindBefore(e.kind, f.kind);
  }

  lemma {:induction false} KeyBefore(models: seq<StateModel>, e: GraphEdge, f: GraphEdge)
    requires NoDup(models) && Placed(models, e) && Placed(models, f)
    ensures TupleLess(SortKey(models, e), SortKey(models, f)) <==> RenderedBefore(models, e, f)
  {
    hide TupleLess, Codes, TextBefore, KindValue, Place, Listed, Position;
    var a, b := [Place(models, e.source, -1)], [Place(models, f.source, -1)];
    var c, d := [Place(models, e.target, |models|)], [Place(models, f.target, |models|)];
    var x, y := [if e.deletes then 1 else 0], [if f.deletes then 1 else 0];
    var p := [Codes(e.processor), Codes(e.function_), Codes(KindValue(e.kind))];
    var q := [Codes(f.processor), Codes(f.function_), Codes(KindValue(f.kind))];
    assert SortKey(models, e) == [a] + ([c] + ([x] + p)) && SortKey(models, f) == [b] + ([d] + ([y] + q));
    TupleStep(a, [c] + ([x] + p), b, [d] + ([y] + q));
    TupleStep(c, [x] + p, d, [y] + q);
    TupleStep(x, p, y, q);
    SingleLess(a[0], b[0]);
    SingleLess(c[0], d[0]);
    SingleLess(x[0], y[0]);
    if a == b { PlaceInjective(models, e.source, f.source, -1); }
    if c == d { PlaceInjective(models, e.target, f.target, |models|); }
    ListedByPlace(models, e.source, f.source, true);
    ListedByPlace(models, e.target, f.target, false);
    OwnerBefore(e, f);
  }

  lemma {:induction false} ValuesDistinct(schema: Schema)
    requires SchemaOk(schema)
    ensures NoDup(StateValues(schema))
  {
    var states := schema.states;
    forall i, j | 0 <= i < j < |states.order| ensures StateValues(schema)[i] != StateValues(schema)[j] {
      assert states.order[i] in states.entries && states.order[j] in states.entries;
    }
  }

  /** The edges are rendered by source, target, processor, function and kind, states as the schema lists them. */
  lemma {:induction false} RenderingOrder(ps: seq<Processor>, xs: seq<GraphEdge>)
    requires Composable(ps) && AllBuilt(ps) && SchemaOk(ps[0].schema) && Lists(GraphEdges(ps), xs)
    ensures var r := SortedEdges(ps[0].schema, xs);
            && r.Some?
            && forall i, j :: 0 <= i < j < |r.value| ==>
                 RenderedBefore(StateValues(ps[0].schema), r.value[i], r.value[j])
  {
    hide AllBuilt, GraphEdges, Placed, SortKey, TupleLess, Sorted, StateValues, SchemaOk, RenderedBefore;
    hide OneTransitionPerState, AllReactions, AllCommands;
    RenderingIsCanonical(ps, xs, xs);
    var models, r := StateValues(ps[0].schema), SortedEdges(ps[0].schema, xs).value;
    ValuesDistinct(ps[0].schema);
    SameMembers(r, xs);
    forall i, j | 0 <= i < j < |r| ensures RenderedBefore(models, r[i], r[j]) {
      assert r[i] in xs && r[j] in xs;
      GraphEdgesPlaced(ps, r[i]);
      GraphEdgesPlaced(ps, r[j]);
      KeyBefore(models, r[i], r[j]);
    }
  }

  // ----- Nodes -----

  datatype Node = Node(model: StateModel, id: string)

  function Digit(n: nat): char
    requires n < 10
  {
    "0123456789"[n]
  }

  function Decimal(n: nat): string {
    if n < 10 then [Digit(n)] else Decimal(n / 10) + [Digit(n % 10)]
  }

  function Prefix(index: nat): string {
    "schema_" + Decimal(index)
  }

  function StateNodes(schema: Schema, prefix: string): seq<Node> {
    var models := StateValues(schema);
    seq(|models|, i requires 0 <= i < |models| => Node(models[i], prefix + "_state_" + Decimal(i)))
  }

  /** The id of a model's node; there is none for a missing or unregistered model. */
  function NodeId(nodes: seq<Node>, model: Option<StateModel>): Option<string> {
    if model.None? || nodes == [] then None
    else if nodes[0].model == model.value then Some(nodes[0].id)
    else NodeId(nodes[1..], model)
  }

  predicate HasInitial(edges: set<GraphEdge>) {
    exists e :: e in edges && e.source.None? && !e.deletes
  }

  predicate HasDeleted(edges: set<GraphEdge>) {
    exists e :: e in edges && e.deletes
  }

  /** The ids one rendered schema declares. */
  function Declared(schema: Schema, prefix: string, edges: set<GraphEdge>): set<string> {
    (set n | n in StateNodes(schema, prefix) :: n.id)
    + (if HasInitial(edges) then {prefix + "_initial"} else {})
    + (if HasDeleted(edges) then {prefix + "_deleted"} else {})
  }

  function SourceId(schema: Schema, prefix: string, e: GraphEdge): Option<string> {
    if e.source.None? then Some(prefix + "_initial") else NodeId(StateNodes(schema, prefix), e.source)
  }

  function TargetId(schema: Schema, prefix: string, e: GraphEdge): Option<string> {
    if e.deletes then Some(prefix + "_deleted") else NodeId(StateNodes(schema, prefix), e.target)
  }

  lemma {:induction false} DigitsOnly(n: nat)
    ensures Decimal(n) != [] && '_' !in Decimal(n)
  {
    if n >= 10 {
      DigitsOnly(n / 10);
    }
  }

  function Reads(digits: string): int {
    if digits == [] then 0
    else 10 * Reads(digits[..|digits| - 1]) + (digits[|digits| - 1] as int - '0' as int)
  }

  /** The numeral of a number is its decimal notation: it reads back, in digits, without a leading zero. */
  lemma {:induction false} DecimalReads(n: nat)
    ensures Reads(Decimal(n)) == n
    ensures forall i :: 0 <= i < |Decimal(n)| ==> '0' <= Decimal(n)[i] <= '9'
    ensures Decimal(n) != [] && (n > 0 ==> Decimal(n)[0] != '0')
  {
    if n < 10 {
      assert Decimal(n)[..0] == [];
    } else {
      DecimalReads(n / 10);
      var s := Decimal(n);
      assert s[..|s| - 1] == Decimal(n / 10);
    }
  }

  lemma {:induction false} DecimalInjective(n: nat, m: nat)
    requires Decimal(n) == Decimal(m)
    ensures n == m
  {
    hide Decimal;
    DecimalReads(n);
    DecimalReads(m);
  }

  lemma {:induction false} SplitAtUnderscore(x: string, a: string, y: string, b: string)
    requires '_' !in x && '_' !in y && x + ['_'] + a == y + ['_'] + b
    ensures x == y && a == b
  {
    var s, t := x + ['_'] + a, y + ['_'] + b;
    assert s[|x|] == '_' && t[|y|] == '_';
    assert forall i :: 0 <= i < |y| ==> t[i] == y[i];
    assert forall i :: 0 <= i < |x| ==> s[i] == x[i];
    assert |x| == |y|;
    assert s[..|x|] == x && t[..|y|] == y;
    assert s[|x| + 1..] == a && t[|y| + 1..] == b;
  }

  lemma {:induction false} SplitId(i: nat, a: string, j: nat, b: string)
    requires Prefix(i) + ['_'] + a == Prefix(j) + ['_'] + b
    ensures i == j && a == b
  {
    hide Decimal;
    var s, t := Prefix(i) + ['_'] + a, Prefix(j) + ['_'] + b;
    assert s[7..] == Decimal(i) + ['_'] + a && t[7..] == Decimal(j) + ['_'] + b;
    DigitsOnly(i);
    DigitsOnly(j);
    SplitAtUnderscore(Decimal(i), a, Decimal(j), b);
    DecimalInjective(i, j);
  }

  lemma {:induction false} StateIdSplits(i: nat, k: nat)
    ensures Prefix(i) + "_state_" + Decimal(k) == Prefix(i) + ['_'] + ("state_" + Decimal(k))
    ensures Prefix(i) + "_initial" == Prefix(i) + ['_'] + "initial"
    ensures Prefix(i) + "_deleted" == Prefix(i) + ['_'] + "deleted"
  {
    hide Decimal, Prefix;
    assert "_state_" == ['_'] + "state_" && "_initial" == ['_'] + "initial" && "_deleted" == ['_'] + "deleted";
  }

  lemma {:induction false} StateIdsDiffer(i: nat, k: nat, j: nat, l: nat)
    ensures Prefix(i) + "_state_" + Decimal(k) == Prefix(j) + "_state_" + Decimal(l) <==> i == j && k == l
    ensures Prefix(i) + "_state_" + Decimal(k) != Prefix(j) + "_initial"
    ensures Prefix(i) + "_state_" + Decimal(k) != Prefix(j) + "_deleted"
    ensures Prefix(i) + "_initial" != Prefix(j) + "_deleted"
  {
    hide Decimal, Prefix;
    StateIdSplits(i, k);
    StateIdSplits(j, l);
    var a, b := "state_" + Decimal(k), "state_" + Decimal(l);
    assert a[0] == 's' && a[6..] == Decimal(k) && b[6..] == Decimal(l);
    if Prefix(i) + ['_'] + a == Prefix(j) + ['_'] + b {
      SplitId(i, a, j, b);
      DecimalInjective(k, l);
    }
    if Prefix(i) + ['_'] + a == Prefix(j) + ['_'] + "initial" { SplitId(i, a, j, "initial"); }
    if Prefix(i) + ['_'] + a == Prefix(j) + ['_'] + "deleted" { SplitId(i, a, j, "deleted"); }
    if Prefix(i) + ['_'] + "initial" == Prefix(j) + ['_'] + "deleted" { SplitId(i, "initial", j, "deleted"); }
  }

  lemma {:induction false} NodeIdFinds(nodes: seq<Node>, model: StateModel) returns (k: nat)
    requires exists i :: 0 <= i < |nodes| && nodes[i].model == model
    ensures k < |nodes| && nodes[k].model == model && NodeId(nodes, Some(model)) == Some(nodes[k].id)
  {
    if nodes[0].model == model {
      k := 0;
    } else {
      var i :| 0 <= i < |nodes| && nodes[i].model == model;
      assert nodes[1..][i - 1].model == model;
      k := NodeIdFinds(nodes[1..], model);
      k := k + 1;
    }
  }

  lemma {:induction false} RegisteredHasNode(schema: Schema, prefix: string, model: StateModel) returns (k: nat)
    requires ContainsState(schema, model)
    ensures k < |StateValues(schema)| && StateValues(schema)[k] == model
    ensures NodeId(StateNodes(schema, prefix), Some(model)) == Some(prefix + "_state_" + Decimal(k))
  {
    hide Decimal, ContainsState;
    RegisteredIsListed(schema, model);
    var nodes := StateNodes(schema, prefix);
    var i :| 0 <= i < |StateValues(schema)| && StateValues(schema)[i] == model;
    assert nodes[i].model == model;
    k := NodeIdFinds(nodes, model);
  }

  /** Registered models have nodes of their own, apart from each other, across schemas, and from the two end nodes. */
  lemma {:induction false} NodesAreDistinct(s: Schema, i: nat, m: StateModel, t: Schema, j: nat, n: StateModel)
    requires ContainsState(s, m) && ContainsState(t, n) && (i == j ==> s == t)
    ensures var left, right := NodeId(StateNodes(s, Prefix(i)), Some(m)), NodeId(StateNodes(t, Prefix(j)), Some(n));
            && left.Some? && right.Some?
            && (left == right <==> i == j && m == n)
            && left.value !in {Prefix(j) + "_initial", Prefix(j) + "_deleted"}
  {
    hide ContainsState, NodeId, StateNodes, Prefix, Decimal;
    var k := RegisteredHasNode(s, Prefix(i), m);
    var l := RegisteredHasNode(t, Prefix(j), n);
    StateIdsDiffer(i, k, j, l);
  }

  /**
   Every rendered edge runs from the node of its source, or the creation node, to the node of its target, or
   the deletion node, and the same rendering declares both.
   */
  lemma {:induction false} EndpointsAreDeclared(ps: seq<Processor>, prefix: string, e: GraphEdge)
    requires Composable(ps) && AllBuilt(ps) && e in GraphEdges(ps)
    ensures var schema := ps[0].schema;
            var source, target := SourceId(schema, prefix, e), TargetId(schema, prefix, e);
            && source.Some? && source.value in Declared(schema, prefix, GraphEdges(ps))
            && target.Some? && target.value in Declared(schema, prefix, GraphEdges(ps))
            && (if e.source.None? then source.value == prefix + "_initial"
                else exists n :: n in StateNodes(schema, prefix) && n.model == e.source.value && n.id == source.value)
            && (if e.target.None? then target.value == prefix + "_deleted"
                else exists n :: n in StateNodes(schema, prefix) && n.model == e.target.value && n.id == target.value)
  {
    EdgesAreSound(ps, e);
    hide Composable, AllBuilt, GraphEdges, ContainsState, Decimal, NodeId, StateValues;
    var schema := ps[0].schema;
    if e.source.Some? {
      NodeDeclared(schema, prefix, e.source.value);
    }
    if e.target.Some? {
      NodeDeclared(schema, prefix, e.target.value);
    }
  }

  lemma {:induction false} NodeDeclared(schema: Schema, prefix: string, model: StateModel)
    requires ContainsState(schema, model)
    ensures var id := NodeId(StateNodes(schema, prefix), Some(model));
            id.Some? && exists n :: n in StateNodes(schema, prefix) && n.model == model && n.id == id.value
  {
    hide ContainsState, Decimal, NodeId;
    var k := RegisteredHasNode(schema, prefix, model);
    assert StateNodes(schema, prefix)[k] in StateNodes(schema, prefix);
  }
}
