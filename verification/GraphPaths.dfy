/**
 Ranked relationship paths between two entities: the best direct edges and the best two-edge paths
 are fetched by two separately limited queries, merged, sorted and cut to the limit.
 */
module GraphPaths {
  import opened Outcomes
  import opened Ranking
  import opened TextOrder

  // A row of `relationship_edges`, with the memory that its best evidence names.
  datatype Edge = Edge(
    edgeId: string,
    subjectId: string,
    objectId: string,
    objectIsEntity: bool,
    status: string,
    predicateName: string,
    confidence: real,
    strength: real,
    evidenceCount: int,
    validFromMs: int,
    validToMs: Option<int>,
    evidenceMemoryId: Option<string>)

  datatype GraphPathStep = GraphPathStep(
    edgeId: string,
    source: string,
    target: string,
    predicateName: string,
    confidence: real,
    strength: real,
    evidenceCount: int,
    validFromMs: int,
    validToMs: Option<int>,
    status: string,
    evidenceMemoryId: Option<string>)

  // The score itself is the (non-negative) square root of `scoreSquared`.
  datatype GraphPath = GraphPath(
    nodes: seq<string>,
    edges: seq<GraphPathStep>,
    hops: nat,
    scoreSquared: real,
    reasonCodes: seq<string>)

  const SEPARATOR: char := '\U{1f}'

  // ---------------------------------------------------------------------------- the two queries --

  predicate ValidAt(e: Edge, asOf: Option<int>) {
    asOf.None? || (e.validFromMs <= asOf.value && (e.validToMs.None? || e.validToMs.value > asOf.value))
  }

  predicate Usable(e: Edge, asOf: Option<int>) {
    e.status == "active" && e.objectIsEntity && ValidAt(e, asOf)
  }

  predicate IsDirect(e: Edge, source: string, target: string, asOf: Option<int>) {
    Usable(e, asOf) && e.subjectId == source && e.objectId == target
  }

  predicate IsTwoHop(p: (Edge, Edge), source: string, target: string, asOf: Option<int>) {
    && Usable(p.0, asOf) && Usable(p.1, asOf)
    && p.1.subjectId == p.0.objectId
    && p.0.subjectId == source && p.1.objectId == target
    && p.0.objectId != source && p.0.objectId != target
  }

  function Weight(e: Edge): real {
    e.strength * e.confidence
  }

  predicate DirectLe(a: Edge, b: Edge) {
    Weight(a) > Weight(b) || (Weight(a) == Weight(b) && LexLe(a.edgeId, b.edgeId))
  }

  predicate TwoHopLe(p: (Edge, Edge), q: (Edge, Edge)) {
    var w, v := Weight(p.0) * Weight(p.1), Weight(q.0) * Weight(q.1);
    w > v || (w == v && PairLe(p.0.edgeId, p.1.edgeId, q.0.edgeId, q.1.edgeId))
  }

  function PairsWith(a: Edge, table: seq<Edge>): (r: seq<(Edge, Edge)>)
    ensures forall p | p in r :: p.0 == a && p.1 in table
    ensures forall b | b in table :: (a, b) in r
  {
    if table == [] then [] else [(a, table[0])] + PairsWith(a, table[1..])
  }

  function Pairs(rows: seq<Edge>, table: seq<Edge>): (r: seq<(Edge, Edge)>)
    ensures forall p | p in r :: p.0 in rows && p.1 in table
    ensures forall a, b | a in rows && b in table :: (a, b) in r
  {
    if rows == [] then [] else PairsWith(rows[0], table) + Pairs(rows[1..], table)
  }

  function Direct(source: string, target: string, asOf: Option<int>): Edge -> bool {
    e => IsDirect(e, source, target, asOf)
  }

  function TwoHop(source: string, target: string, asOf: Option<int>): ((Edge, Edge)) -> bool {
    (p: (Edge, Edge)) => IsTwoHop(p, source, target, asOf)
  }

  function DirectEdges(table: seq<Edge>, source: string, target: string, asOf: Option<int>): seq<Edge> {
    Filter(Direct(source, target, asOf), table)
  }

  function TwoHopPairs(table: seq<Edge>, source: string, target: string, asOf: Option<int>): seq<(Edge, Edge)> {
    Filter(TwoHop(source, target, asOf), Pairs(table, table))
  }

  function BestDirect(table: seq<Edge>, source: string, target: string, asOf: Option<int>, limit: nat): seq<Edge> {
    Take(limit, Sort(DirectLe, DirectEdges(table, source, target, asOf)))
  }

  function BestTwoHop(table: seq<Edge>, source: string, target: string, asOf: Option<int>, limit: nat)
    : seq<(Edge, Edge)>
  {
    Take(limit, Sort(TwoHopLe, TwoHopPairs(table, source, target, asOf)))
  }

  // ------------------------------------------------------------------------------ one path --

  function StepOf(e: Edge): GraphPathStep {
    GraphPathStep(e.edgeId, "ent:" + e.subjectId, "ent:" + e.objectId, e.predicateName, e.confidence, e.strength,
                  e.evidenceCount, e.validFromMs, e.validToMs, e.status, e.evidenceMemoryId)
  }

  function AtLeastZero(x: real): real {
    if x < 0.0 then 0.0 else x
  }

  function StepScore(s: GraphPathStep): real {
    AtLeastZero(s.confidence) * AtLeastZero(s.strength)
  }

  function Product(steps: seq<GraphPathStep>): real {
    if steps == [] then 1.0 else Product(steps[..|steps| - 1]) * StepScore(steps[|steps| - 1])
  }

  function Targets(steps: seq<GraphPathStep>): seq<string> {
    seq(|steps|, i requires 0 <= i < |steps| => steps[i].target)
  }

  function PathOf(steps: seq<GraphPathStep>, temporal: bool): GraphPath
    requires 1 <= |steps| <= 2
  {
    GraphPath(
      [steps[0].source] + Targets(steps),
      steps,
      |steps|,
      if |steps| == 1 then Product(steps) * Product(steps) else Product(steps),
      [if |steps| == 1 then "direct_relationship" else "two_hop_relationship_path", "evidence_backed"]
      + (if temporal then ["temporal_match"] else []))
  }

  function DirectPath(temporal: bool): Edge -> GraphPath {
    e => PathOf([StepOf(e)], temporal)
  }

  function TwoHopPath(temporal: bool): ((Edge, Edge)) -> GraphPath {
    (p: (Edge, Edge)) => PathOf([StepOf(p.0), StepOf(p.1)], temporal)
  }

  method BuildGraphPath(steps: seq<GraphPathStep>, temporal: bool) returns (path: GraphPath)
    requires 1 <= |steps| <= 2
    ensures path == PathOf(steps, temporal)
    ensures path.edges == steps && path.hops == |steps| && |path.nodes| == |steps| + 1
    ensures path.nodes[0] == steps[0].source
    ensures forall i | 0 <= i < |steps| :: path.nodes[i + 1] == steps[i].target
  {
    var nodes := [steps[0].source];
    var product := 1.0;
    var i := 0;
    while i < |steps|
      invariant 0 <= i <= |steps|
      invariant nodes == [steps[0].source] + Targets(steps[..i])
      invariant product == Product(steps[..i])
    {
      nodes := nodes + [steps[i].target];
      product := product * StepScore(steps[i]);
      assert steps[..i + 1][..i] == steps[..i];
      i := i + 1;
    }
    assert steps[..|steps|] == steps;
    var reasonCodes := [if |steps| == 1 then "direct_relationship" else "two_hop_relationship_path", "evidence_backed"];
    if temporal {
      reasonCodes := reasonCodes + ["temporal_match"];
    }
    path := GraphPath(nodes, steps, |steps|, if |steps| == 1 then product * product else product, reasonCodes);
  }

  // --------------------------------------------------------------------------- the ranking --

  function Key(edges: seq<GraphPathStep>): string {
    if edges == [] then []
    else if |edges| == 1 then edges[0].edgeId
    else edges[0].edgeId + ([SEPARATOR] + Key(edges[1..]))
  }

  predicate PathLe(p: GraphPath, q: GraphPath) {
    p.scoreSquared > q.scoreSquared ||
    (p.scoreSquared == q.scoreSquared &&
     (p.hops < q.hops || (p.hops == q.hops && LexLe(Key(p.edges), Key(q.edges)))))
  }

  // Every path that qualifies, unlimited.
  function AllPaths(table: seq<Edge>, source: string, target: string, maxHops: nat, asOf: Option<int>)
    : seq<GraphPath>
  {
    Map(DirectPath(asOf.Some?), DirectEdges(table, source, target, asOf))
    + if maxHops >= 2 then Map(TwoHopPath(asOf.Some?), TwoHopPairs(table, source, target, asOf)) else []
  }

  // The first `limit` of all qualifying paths.
  function Ranked(table: seq<Edge>, source: string, target: string, maxHops: nat, asOf: Option<int>, limit: nat)
    : seq<GraphPath>
  {
    Take(limit, Sort(PathLe, AllPaths(table, source, target, maxHops, asOf)))
  }

  // What the two limited queries come to.
  function Fetched(table: seq<Edge>, source: string, target: string, maxHops: nat, asOf: Option<int>, limit: nat)
    : seq<GraphPath>
  {
    Take(limit, Sort(PathLe,
      Map(DirectPath(asOf.Some?), BestDirect(table, source, target, asOf, limit))
      + if maxHops >= 2 then Map(TwoHopPath(asOf.Some?), BestTwoHop(table, source, target, asOf, limit)) else []))
  }

  // PRIMARY KEY
  ghost predicate DistinctIds(table: seq<Edge>) {
    forall i, j | 0 <= i < j < |table| :: table[i].edgeId != table[j].edgeId
  }

  // The query weighs an edge with its signs, a path's score without: negative factors count as zero.
  predicate FairlyWeighed(e: Edge) {
    Weight(e) == StepScore(StepOf(e))
  }

  predicate ApartIds(a: Edge, b: Edge) {
    !Collides(SEPARATOR, a.edgeId, b.edgeId) && !Collides(SEPARATOR, b.edgeId, a.edgeId)
  }

  // What both queries and the final sort need to rank alike: no qualifying edge has misleading signs, and
  // where two qualifying chains weigh the same, neither first id continues the other with a character up
  // to U+001F.
  ghost predicate RanksAlike(table: seq<Edge>, source: string, target: string, asOf: Option<int>) {
    && (forall e | e in DirectEdges(table, source, target, asOf) :: FairlyWeighed(e))
    && (forall p | p in TwoHopPairs(table, source, target, asOf) :: FairlyWeighed(p.0) && FairlyWeighed(p.1))
    && (forall p, q | p in TwoHopPairs(table, source, target, asOf) && q in TwoHopPairs(table, source, target, asOf) ::
          Weight(p.0) * Weight(p.1) == Weight(q.0) * Weight(q.1) ==> ApartIds(p.0, q.0))
  }

  lemma PathPreorder()
    ensures Preorder(PathLe)
  {
    LexIsPreorder();
  }

  lemma PositiveProduct(x: real, y: real)
    requires x > 0.0 && y > 0.0
    ensures x * y > 0.0
  {
  }

  lemma LargerSquare(x: real, y: real)
    requires x > y >= 0.0
    ensures x * x > y * y
  {
    PositiveProduct(x - y, x + y);
    assert x * x - y * y == (x - y) * (x + y);
  }

  lemma SquaresOrder(x: real, y: real)
    requires x >= 0.0 && y >= 0.0
    ensures x > y <==> x * x > y * y
    ensures x == y <==> x * x == y * y
  {
    if x > y { LargerSquare(x, y); }
    if x < y { LargerSquare(y, x); }
  }

  // The queries rank as the final sort does.
  lemma DirectOrderAgrees(temporal: bool, a: Edge, b: Edge)
    requires FairlyWeighed(a) && FairlyWeighed(b)
    ensures DirectLe(a, b) == PathLe(DirectPath(temporal)(a), DirectPath(temporal)(b))
  {
    DirectScore(temporal, a);
    DirectScore(temporal, b);
    SquaresOrder(StepScore(StepOf(a)), StepScore(StepOf(b)));
  }

  lemma ScoreIsPositive(s: GraphPathStep)
    ensures StepScore(s) >= 0.0
  {
    var x, y := AtLeastZero(s.confidence), AtLeastZero(s.strength);
    if x > 0.0 && y > 0.0 { PositiveProduct(x, y); }
  }

  lemma DirectScore(temporal: bool, e: Edge)
    ensures var score := StepScore(StepOf(e));
            score >= 0.0 && DirectPath(temporal)(e).scoreSquared == score * score
    ensures Key(DirectPath(temporal)(e).edges) == e.edgeId && DirectPath(temporal)(e).hops == 1
  {
    ScoreIsPositive(StepOf(e));
    ProductOfOne(StepOf(e));
  }

  lemma ProductOfOne(s: GraphPathStep)
    ensures Product([s]) == StepScore(s)
  {
    assert [s][..0] == [];
    assert Product([s]) == Product([]) * StepScore(s);
  }

  lemma ProductOfTwo(s: GraphPathStep, t: GraphPathStep)
    ensures Product([s, t]) == StepScore(s) * StepScore(t)
  {
    ProductOfOne(s);
    assert [s, t][..1] == [s];
  }

  lemma TwoHopScore(temporal: bool, p: (Edge, Edge))
    requires FairlyWeighed(p.0) && FairlyWeighed(p.1)
    ensures TwoHopPath(temporal)(p).scoreSquared == Weight(p.0) * Weight(p.1)
    ensures Key(TwoHopPath(temporal)(p).edges) == p.0.edgeId + ([SEPARATOR] + p.1.edgeId)
    ensures TwoHopPath(temporal)(p).hops == 2
  {
    ProductOfTwo(StepOf(p.0), StepOf(p.1));
    assert [StepOf(p.0), StepOf(p.1)][1..] == [StepOf(p.1)];
  }

  lemma TwoHopOrderAgrees(temporal: bool, p: (Edge, Edge), q: (Edge, Edge))
    requires FairlyWeighed(p.0) && FairlyWeighed(p.1) && FairlyWeighed(q.0) && FairlyWeighed(q.1)
    requires Weight(p.0) * Weight(p.1) == Weight(q.0) * Weight(q.1) ==> ApartIds(p.0, q.0)
    ensures TwoHopLe(p, q) == PathLe(TwoHopPath(temporal)(p), TwoHopPath(temporal)(q))
  {
    TwoHopScore(temporal, p);
    TwoHopScore(temporal, q);
    if ApartIds(p.0, q.0) {
      JoinedOrder(SEPARATOR, p.0.edgeId, p.1.edgeId, q.0.edgeId, q.1.edgeId);
    }
  }

  lemma TakeThroughMap<A, B>(k: nat, f: A -> B, s: seq<A>)
    ensures Map(f, Take(k, s)) == Take(k, Map(f, s))
  {
  }

  lemma BestDirectPaths(table: seq<Edge>, source: string, target: string, asOf: Option<int>, limit: nat)
    requires RanksAlike(table, source, target, asOf)
    ensures var f := DirectPath(asOf.Some?);
            Map(f, BestDirect(table, source, target, asOf, limit))
            == Take(limit, Sort(PathLe, Map(f, DirectEdges(table, source, target, asOf))))
  {
    var d, f := DirectEdges(table, source, target, asOf), DirectPath(asOf.Some?);
    forall x, y | x in d && y in d ensures DirectLe(x, y) == PathLe(f(x), f(y)) {
      DirectOrderAgrees(asOf.Some?, x, y);
    }
    hide DirectLe, PathLe, DirectPath, DirectEdges;
    SortThroughMap(DirectLe, PathLe, f, d);
    TakeThroughMap(limit, f, Sort(DirectLe, d));
  }

  lemma BestTwoHopPaths(table: seq<Edge>, source: string, target: string, asOf: Option<int>, limit: nat)
    requires RanksAlike(table, source, target, asOf)
    ensures var g := TwoHopPath(asOf.Some?);
            Map(g, BestTwoHop(table, source, target, asOf, limit))
            == Take(limit, Sort(PathLe, Map(g, TwoHopPairs(table, source, target, asOf))))
  {
    var t, g := TwoHopPairs(table, source, target, asOf), TwoHopPath(asOf.Some?);
    forall x, y | x in t && y in t ensures TwoHopLe(x, y) == PathLe(g(x), g(y)) {
      TwoHopOrderAgrees(asOf.Some?, x, y);
    }
    hide TwoHopLe, PathLe, TwoHopPath, TwoHopPairs;
    SortThroughMap(TwoHopLe, PathLe, g, t);
    TakeThroughMap(limit, g, Sort(TwoHopLe, t));
  }

  // The two limited queries, merged, sorted and cut, are the first `limit` of all qualifying paths.
  lemma MergeIsExact(
    table: seq<Edge>, source: string, target: string, maxHops: nat, asOf: Option<int>, limit: nat)
    requires RanksAlike(table, source, target, asOf)
    ensures Fetched(table, source, target, maxHops, asOf, limit) == Ranked(table, source, target, maxHops, asOf, limit)
  {
    var d, f := DirectEdges(table, source, target, asOf), DirectPath(asOf.Some?);
    var t, g := TwoHopPairs(table, source, target, asOf), TwoHopPath(asOf.Some?);
    PathPreorder();
    BestDirectPaths(table, source, target, asOf, limit);
    BestTwoHopPaths(table, source, target, asOf, limit);
    hide RanksAlike, PathLe, DirectPath, TwoHopPath, DirectEdges, TwoHopPairs, BestDirect, BestTwoHop;
    if maxHops >= 2 {
      BestOfTwo(PathLe, limit, Map(f, d), Map(g, t));
    } else {
      BestOfTwo(PathLe, limit, Map(f, d), []);
      assert Take(limit, Sort(PathLe, [])) == [];
    }
  }

  // Rows as the program inserts them: the text of a UUID for an id, and the strength equal to a confidence
  // that passed its bounds.
  ghost predicate AsInserted(table: seq<Edge>) {
    && (forall e | e in table :: e.strength == e.confidence >= 0.0)
    && (forall e, f | e in table && f in table :: |e.edgeId| == |f.edgeId|)
  }

  lemma EvenIdsAreApart(e: Edge, f: Edge)
    requires |e.edgeId| == |f.edgeId|
    ensures ApartIds(e, f)
  {
  }

  // So the merge is exact on every table that the program alone has written.
  lemma MergeOfInsertedIsExact(
    table: seq<Edge>, source: string, target: string, maxHops: nat, asOf: Option<int>, limit: nat)
    requires AsInserted(table)
    ensures Fetched(table, source, target, maxHops, asOf, limit) == Ranked(table, source, target, maxHops, asOf, limit)
  {
    var d, t := DirectEdges(table, source, target, asOf), TwoHopPairs(table, source, target, asOf);
    assert forall e | e in d :: e in table;
    assert forall p | p in t :: p.0 in table && p.1 in table;
    hide DirectEdges, TwoHopPairs, Fetched, Ranked, FairlyWeighed, ApartIds;
    forall e | e in table ensures FairlyWeighed(e) {
      SignsDecide(e);
    }
    forall e, f | e in table && f in table ensures ApartIds(e, f) {
      EvenIdsAreApart(e, f);
    }
    MergeIsExact(table, source, target, maxHops, asOf, limit);
  }

  // ------------------------------------------------------------------------ what a path shows --

  // A step shows one row, field by field.
  predicate Shows(step: GraphPathStep, e: Edge) {
    && step.edgeId == e.edgeId && step.source == "ent:" + e.subjectId && step.target == "ent:" + e.objectId
    && step.predicateName == e.predicateName && step.confidence == e.confidence && step.strength == e.strength
    && step.evidenceCount == e.evidenceCount && step.validFromMs == e.validFromMs && step.validToMs == e.validToMs
    && step.status == e.status && step.evidenceMemoryId == e.evidenceMemoryId
  }

  // The row is an active edge between entities, valid at the given moment.
  ghost predicate ShowsRow(table: seq<Edge>, asOf: Option<int>, step: GraphPathStep) {
    exists e :: e in table && Shows(step, e) && e.status == "active" && e.objectIsEntity &&
      (asOf.Some? ==> e.validFromMs <= asOf.value && (e.validToMs.Some? ==> asOf.value < e.validToMs.value))
  }

  function Positive(x: real): real {
    if x > 0.0 then x else 0.0
  }

  // A path leads from the source to the target over one usable row, or over two that meet elsewhere; its
  // score and its reasons follow from those rows.
  ghost predicate IsChain(
    table: seq<Edge>, source: string, target: string, maxHops: nat, asOf: Option<int>, p: GraphPath)
  {
    && (p.hops == 1 || (p.hops == 2 && maxHops >= 2))
    && |p.edges| == p.hops && |p.nodes| == p.hops + 1
    && p.nodes[0] == "ent:" + source && p.nodes[p.hops] == "ent:" + target
    && (forall i | 0 <= i < p.hops :: p.edges[i].source == p.nodes[i] && p.edges[i].target == p.nodes[i + 1])
    && (forall i | 0 <= i < p.hops :: ShowsRow(table, asOf, p.edges[i]))
    && (p.hops == 2 ==> p.nodes[1] != p.nodes[0] && p.nodes[1] != p.nodes[2])
    && (var first := Positive(p.edges[0].confidence) * Positive(p.edges[0].strength);
        var last := Positive(p.edges[p.hops - 1].confidence) * Positive(p.edges[p.hops - 1].strength);
        p.scoreSquared == first * last)
    && p.reasonCodes == [if p.hops == 1 then "direct_relationship" else "two_hop_relationship_path", "evidence_backed"]
                        + (if asOf.Some? then ["temporal_match"] else [])
  }

  lemma EntityIds(a: string, b: string)
    ensures "ent:" + a == "ent:" + b <==> a == b
  {
    assert ("ent:" + a)[4..] == a && ("ent:" + b)[4..] == b;
  }

  lemma DirectIsChain(table: seq<Edge>, source: string, target: string, maxHops: nat, asOf: Option<int>, e: Edge)
    requires e in table && IsDirect(e, source, target, asOf)
    ensures IsChain(table, source, target, maxHops, asOf, DirectPath(asOf.Some?)(e))
  {
    assert Shows(StepOf(e), e);
    DirectScore(asOf.Some?, e);
  }

  lemma TwoHopIsChain(
    table: seq<Edge>, source: string, target: string, maxHops: nat, asOf: Option<int>, a: Edge, b: Edge)
    requires a in table && b in table && IsTwoHop((a, b), source, target, asOf) && maxHops >= 2
    ensures IsChain(table, source, target, maxHops, asOf, TwoHopPath(asOf.Some?)((a, b)))
  {
    assert Shows(StepOf(a), a) && Shows(StepOf(b), b);
    EntityIds(a.objectId, source);
    EntityIds(a.objectId, target);
    ProductOfTwo(StepOf(a), StepOf(b));
  }

  lemma ShownBy(table: seq<Edge>, asOf: Option<int>, step: GraphPathStep) returns (e: Edge)
    requires ShowsRow(table, asOf, step)
    ensures e in table && Usable(e, asOf) && StepOf(e) == step
  {
    e :| e in table && Shows(step, e) && e.status == "active" && e.objectIsEntity &&
      (asOf.Some? ==> e.validFromMs <= asOf.value && (e.validToMs.Some? ==> asOf.value < e.validToMs.value));
  }

  lemma OneHopIsDirect(
    table: seq<Edge>, source: string, target: string, maxHops: nat, asOf: Option<int>, p: GraphPath) returns (e: Edge)
    requires IsChain(table, source, target, maxHops, asOf, p) && p.hops == 1
    ensures e in table && IsDirect(e, source, target, asOf) && p == DirectPath(asOf.Some?)(e)
  {
    e := ShownBy(table, asOf, p.edges[0]);
    EntityIds(e.subjectId, source);
    EntityIds(e.objectId, target);
    DirectScore(asOf.Some?, e);
    assert p.edges == [StepOf(e)];
    assert p.nodes == [p.nodes[0], p.nodes[1]];
    assert DirectPath(asOf.Some?)(e).nodes == p.nodes;
  }

  lemma TwoHopsAreTwoHop(
    table: seq<Edge>, source: string, target: string, maxHops: nat, asOf: Option<int>, p: GraphPath)
    returns (a: Edge, b: Edge)
    requires IsChain(table, source, target, maxHops, asOf, p) && p.hops == 2
    ensures a in table && b in table && IsTwoHop((a, b), source, target, asOf) && p == TwoHopPath(asOf.Some?)((a, b))
  {
    a := ShownBy(table, asOf, p.edges[0]);
    b := ShownBy(table, asOf, p.edges[1]);
    EntityIds(a.subjectId, source);
    EntityIds(b.objectId, target);
    EntityIds(a.objectId, b.subjectId);
    EntityIds(a.objectId, source);
    EntityIds(a.objectId, target);
    ProductOfTwo(StepOf(a), StepOf(b));
    assert p.edges == [StepOf(a), StepOf(b)];
    assert p.nodes == [p.nodes[0], p.nodes[1], p.nodes[2]];
    assert TwoHopPath(asOf.Some?)((a, b)).nodes == p.nodes;
  }

  // The qualifying paths are exactly the chains over the table.
  lemma AllPathsIff(table: seq<Edge>, source: string, target: string, maxHops: nat, asOf: Option<int>, p: GraphPath)
    ensures p in AllPaths(table, source, target, maxHops, asOf) <==> IsChain(table, source, target, maxHops, asOf, p)
  {
    var d, t := DirectEdges(table, source, target, asOf), TwoHopPairs(table, source, target, asOf);
    hide IsChain, DirectPath, TwoHopPath;
    if p in Map(DirectPath(asOf.Some?), d) {
      var e := MapOrigin(DirectPath(asOf.Some?), d, p);
      DirectIsChain(table, source, target, maxHops, asOf, e);
    } else if maxHops >= 2 && p in Map(TwoHopPath(asOf.Some?), t) {
      var q := MapOrigin(TwoHopPath(asOf.Some?), t, p);
      assert q == (q.0, q.1);
      TwoHopIsChain(table, source, target, maxHops, asOf, q.0, q.1);
    }
    if IsChain(table, source, target, maxHops, asOf, p) {
      ChainIsThere(table, source, target, maxHops, asOf, p);
    }
  }

  lemma ChainIsThere(table: seq<Edge>, source: string, target: string, maxHops: nat, asOf: Option<int>, p: GraphPath)
    requires IsChain(table, source, target, maxHops, asOf, p)
    ensures p in AllPaths(table, source, target, maxHops, asOf)
  {
    if p.hops == 1 {
      var e := OneHopIsDirect(table, source, target, maxHops, asOf, p);
      hide DirectPath, TwoHopPath;
      MapContains(DirectPath(asOf.Some?), DirectEdges(table, source, target, asOf), e);
    } else {
      var a, b := TwoHopsAreTwoHop(table, source, target, maxHops, asOf, p);
      hide DirectPath, TwoHopPath;
      assert (a, b) in Pairs(table, table);
      MapContains(TwoHopPath(asOf.Some?), TwoHopPairs(table, source, target, asOf), (a, b));
    }
  }

  // Better scores first, then fewer hops, then the ids of the edges, joined.
  predicate RanksBefore(p: GraphPath, q: GraphPath) {
    || p.scoreSquared > q.scoreSquared
    || (p.scoreSquared == q.scoreSquared && p.hops < q.hops)
    || (p.scoreSquared == q.scoreSquared && p.hops == q.hops && LexLe(JoinedIds(p), JoinedIds(q)))
  }

  function JoinedIds(p: GraphPath): string {
    match |p.edges|
    case 1 => p.edges[0].edgeId
    case 2 => p.edges[0].edgeId + ("\U{1f}" + p.edges[1].edgeId)
    case _ => ""
  }

  lemma PathLeIff(p: GraphPath, q: GraphPath)
    requires 1 <= |p.edges| <= 2 && 1 <= |q.edges| <= 2
    ensures PathLe(p, q) <==> RanksBefore(p, q)
  {
    assert |p.edges| == 2 ==> Key(p.edges[1..]) == p.edges[1].edgeId;
    assert |q.edges| == 2 ==> Key(q.edges[1..]) == q.edges[1].edgeId;
  }

  // Whatever the two queries rank, all that is fetched is chains over the table, best first.
  lemma FetchedAreChains(
    table: seq<Edge>, source: string, target: string, maxHops: nat, asOf: Option<int>, limit: nat)
    ensures var paths := Fetched(table, source, target, maxHops, asOf, limit);
            && |paths| <= limit
            && (forall p | p in paths :: IsChain(table, source, target, maxHops, asOf, p))
            && (forall i, j | 0 <= i < j < |paths| :: RanksBefore(paths[i], paths[j]))
  {
    var paths := Fetched(table, source, target, maxHops, asOf, limit);
    var direct := Map(DirectPath(asOf.Some?), BestDirect(table, source, target, asOf, limit));
    var pairs := if maxHops >= 2 then Map(TwoHopPath(asOf.Some?), BestTwoHop(table, source, target, asOf, limit)) else [];
    PathPreorder();
    hide IsChain, PathLe, DirectPath, TwoHopPath, BestDirect, BestTwoHop, RanksBefore;
    forall p | p in paths ensures IsChain(table, source, target, maxHops, asOf, p) && 1 <= |p.edges| <= 2 {
      TakenFrom(PathLe, limit, direct + pairs, p);
      FetchedIsChain(table, source, target, maxHops, asOf, limit, p);
      ChainLength(table, source, target, maxHops, asOf, p);
    }
    SortSorts(PathLe, direct + pairs);
    forall i, j | 0 <= i < j < |paths| ensures RanksBefore(paths[i], paths[j]) {
      assert paths[i] in paths && paths[j] in paths;
      PathLeIff(paths[i], paths[j]);
    }
  }

  lemma ChainLength(table: seq<Edge>, source: string, target: string, maxHops: nat, asOf: Option<int>, p: GraphPath)
    requires IsChain(table, source, target, maxHops, asOf, p)
    ensures 1 <= |p.edges| <= 2
  {
  }

  lemma FetchedIsChain(
    table: seq<Edge>, source: string, target: string, maxHops: nat, asOf: Option<int>, limit: nat, p: GraphPath)
    requires p in Map(DirectPath(asOf.Some?), BestDirect(table, source, target, asOf, limit)) ||
             (maxHops >= 2 && p in Map(TwoHopPath(asOf.Some?), BestTwoHop(table, source, target, asOf, limit)))
    ensures IsChain(table, source, target, maxHops, asOf, p)
  {
    hide IsChain, DirectPath, TwoHopPath, IsDirect, IsTwoHop;
    if p in Map(DirectPath(asOf.Some?), BestDirect(table, source, target, asOf, limit)) {
      var e := MapOrigin(DirectPath(asOf.Some?), BestDirect(table, source, target, asOf, limit), p);
      DirectPreorder();
      TakenFrom(DirectLe, limit, DirectEdges(table, source, target, asOf), e);
      DirectIsChain(table, source, target, maxHops, asOf, e);
    } else {
      var q := MapOrigin(TwoHopPath(asOf.Some?), BestTwoHop(table, source, target, asOf, limit), p);
      TwoHopPreorder();
      TakenFrom(TwoHopLe, limit, TwoHopPairs(table, source, target, asOf), q);
      assert q == (q.0, q.1);
      TwoHopIsChain(table, source, target, maxHops, asOf, q.0, q.1);
    }
  }

  // And where queries and sort rank alike, nothing better is missed: a chain over the table is in the
  // result, or the result is full of chains that rank before it.
  lemma ChainsAreFetched(
    table: seq<Edge>, source: string, target: string, maxHops: nat, asOf: Option<int>, limit: nat, p: GraphPath)
    requires RanksAlike(table, source, target, asOf) && IsChain(table, source, target, maxHops, asOf, p)
    ensures var paths := Fetched(table, source, target, maxHops, asOf, limit);
            p in paths || (|paths| == limit && forall q | q in paths :: RanksBefore(q, p))
  {
    var paths := Fetched(table, source, target, maxHops, asOf, limit);
    MergeIsExact(table, source, target, maxHops, asOf, limit);
    PathPreorder();
    AllPathsIff(table, source, target, maxHops, asOf, p);
    TakeIsBest(PathLe, limit, AllPaths(table, source, target, maxHops, asOf), p);
    FetchedAreChains(table, source, target, maxHops, asOf, limit);
    hide IsChain, PathLe, RanksBefore, Fetched, RanksAlike;
    ChainLength(table, source, target, maxHops, asOf, p);
    forall q | q in paths ensures PathLe(q, p) <==> RanksBefore(q, p) {
      ChainLength(table, source, target, maxHops, asOf, q);
      PathLeIff(q, p);
    }
  }

  // ------------------------------------------------------------------------ the procedure --

  // fetch_graph_path_step: the row with that key, when it is an active edge between entities
  method FetchStep(table: seq<Edge>, edgeId: string) returns (step: Option<GraphPathStep>)
    requires DistinctIds(table)
    ensures forall e | e in table && e.edgeId == edgeId ::
              step == if e.status == "active" && e.objectIsEntity then Some(StepOf(e)) else None
    ensures forall e | e in table && e.edgeId == edgeId && step.Some? :: Shows(step.value, e)
    ensures (forall e | e in table :: e.edgeId != edgeId) ==> step.None?
  {
    var i := 0;
    while i < |table|
      invariant 0 <= i <= |table|
      invariant forall j | 0 <= j < i :: table[j].edgeId != edgeId
    {
      if table[i].edgeId == edgeId {
        return if table[i].status == "active" && table[i].objectIsEntity then Some(StepOf(table[i])) else None;
      }
      i := i + 1;
    }
    return None;
  }

  method FetchGraphRelationshipPaths(
    table: seq<Edge>, source: string, target: string, maxHops: nat, asOf: Option<int>, limit: nat)
    returns (paths: seq<GraphPath>)
    requires DistinctIds(table)
    ensures paths == Fetched(table, source, target, maxHops, asOf, limit)
    ensures |paths| <= limit && forall p | p in paths :: IsChain(table, source, target, maxHops, asOf, p)
    ensures RanksAlike(table, source, target, asOf) ==> paths == Ranked(table, source, target, maxHops, asOf, limit)
  {
    hide Map, Sort, BestDirect, BestTwoHop, PathOf, StepOf, AllPaths, IsChain, RanksAlike;
    paths := [];
    var directEdges := BestDirect(table, source, target, asOf, limit);
    BestRows(table, source, target, asOf, limit);
    var i := 0;
    while i < |directEdges|
      invariant 0 <= i <= |directEdges|
      invariant paths == Map(DirectPath(asOf.Some?), directEdges[..i])
    {
      var e := directEdges[i];
      assert e in directEdges;
      var step := FetchStep(table, e.edgeId);
      if step.Some? {
        var path := BuildGraphPath([step.value], asOf.Some?);
        paths := paths + [path];
      }
      assert directEdges[..i + 1] == directEdges[..i] + [e];
      MapSnoc(DirectPath(asOf.Some?), directEdges[..i], e);
      i := i + 1;
    }
    assert directEdges[..i] == directEdges;
    ghost var direct := paths;
    if maxHops >= 2 {
      var pairs := BestTwoHop(table, source, target, asOf, limit);
      i := 0;
      while i < |pairs|
        invariant 0 <= i <= |pairs|
        invariant paths == direct + Map(TwoHopPath(asOf.Some?), pairs[..i])
      {
        var p := pairs[i];
        assert p in pairs;
        var first := FetchStep(table, p.0.edgeId);
        var second := FetchStep(table, p.1.edgeId);
        if first.Some? && second.Some? {
          var path := BuildGraphPath([first.value, second.value], asOf.Some?);
          paths := paths + [path];
        }
        assert pairs[..i + 1] == pairs[..i] + [p];
        MapSnoc(TwoHopPath(asOf.Some?), pairs[..i], p);
        i := i + 1;
      }
      assert pairs[..i] == pairs;
    }
    assert paths == direct + if maxHops >= 2 then
                               Map(TwoHopPath(asOf.Some?), BestTwoHop(table, source, target, asOf, limit))
                             else [];
    FetchedAreChains(table, source, target, maxHops, asOf, limit);
    if RanksAlike(table, source, target, asOf) {
      MergeIsExact(table, source, target, maxHops, asOf, limit);
    }
    paths := Sort(PathLe, paths);
    if |paths| > limit {
      paths := paths[..limit];
    }
  }

  // The rows that the queries return are active edges of the table.
  lemma BestRows(table: seq<Edge>, source: string, target: string, asOf: Option<int>, limit: nat)
    ensures forall e | e in BestDirect(table, source, target, asOf, limit) ::
              e in table && e.status == "active" && e.objectIsEntity
    ensures forall p | p in BestTwoHop(table, source, target, asOf, limit) ::
              && p.0 in table && p.0.status == "active" && p.0.objectIsEntity
              && p.1 in table && p.1.status == "active" && p.1.objectIsEntity
  {
    var d, t := DirectEdges(table, source, target, asOf), TwoHopPairs(table, source, target, asOf);
    SortThroughMap(DirectLe, (x, y) => DirectLe(x, y), (e: Edge) => e, d);
    SortThroughMap(TwoHopLe, (x, y) => TwoHopLe(x, y), (p: (Edge, Edge)) => p, t);
  }

  // ------------------------------------------------------------------ what a caller can rely on --

  // A two-edge chain that qualifies is in the result, or the result is full of paths that rank no
  // lower; nothing else is in the result; and a larger limit only extends it.
  lemma RankedIsBest(
    table: seq<Edge>, source: string, target: string, asOf: Option<int>, limit: nat, a: Edge, b: Edge)
    requires a in table && b in table && IsTwoHop((a, b), source, target, asOf)
    ensures var best := Ranked(table, source, target, 2, asOf, limit);
            var path := PathOf([StepOf(a), StepOf(b)], asOf.Some?);
            path in best || (|best| == limit && forall p | p in best :: PathLe(p, path))
  {
    var t, g := TwoHopPairs(table, source, target, asOf), TwoHopPath(asOf.Some?);
    PathPreorder();
    assert (a, b) in Pairs(table, table);
    MapContains(g, t, (a, b));
    assert g((a, b)) in AllPaths(table, source, target, 2, asOf);
    TakeIsBest(PathLe, limit, AllPaths(table, source, target, 2, asOf), g((a, b)));
  }

  lemma DirectIsBest(
    table: seq<Edge>, source: string, target: string, maxHops: nat, asOf: Option<int>, limit: nat, e: Edge)
    requires e in table && IsDirect(e, source, target, asOf)
    ensures var best := Ranked(table, source, target, maxHops, asOf, limit);
            var path := PathOf([StepOf(e)], asOf.Some?);
            path in best || (|best| == limit && forall p | p in best :: PathLe(p, path))
  {
    var d, f := DirectEdges(table, source, target, asOf), DirectPath(asOf.Some?);
    PathPreorder();
    MapContains(f, d, e);
    assert f(e) in AllPaths(table, source, target, maxHops, asOf);
    TakeIsBest(PathLe, limit, AllPaths(table, source, target, maxHops, asOf), f(e));
  }

  // Although both queries are limited anew, a larger limit only extends what is returned.
  lemma LargerLimitExtends(
    table: seq<Edge>, source: string, target: string, maxHops: nat, asOf: Option<int>, limit: nat, larger: nat)
    requires RanksAlike(table, source, target, asOf) && limit <= larger
    ensures Fetched(table, source, target, maxHops, asOf, limit) <= Fetched(table, source, target, maxHops, asOf, larger)
  {
    MergeIsExact(table, source, target, maxHops, asOf, limit);
    MergeIsExact(table, source, target, maxHops, asOf, larger);
  }

  lemma OnlyQualifyingPaths(
    table: seq<Edge>, source: string, target: string, maxHops: nat, asOf: Option<int>, limit: nat, p: GraphPath)
    requires p in Ranked(table, source, target, maxHops, asOf, limit)
    ensures IsChain(table, source, target, maxHops, asOf, p)
    ensures || (exists e :: e in table && IsDirect(e, source, target, asOf) && p == PathOf([StepOf(e)], asOf.Some?))
            || (maxHops >= 2 && exists a, b :: a in table && b in table && IsTwoHop((a, b), source, target, asOf)
                                 && p == PathOf([StepOf(a), StepOf(b)], asOf.Some?))
  {
    PathPreorder();
    var all := AllPaths(table, source, target, maxHops, asOf);
    SortSorts(PathLe, all);
    assert p in all;
    AllPathsIff(table, source, target, maxHops, asOf, p);
    hide IsChain;
    var d, t := DirectEdges(table, source, target, asOf), TwoHopPairs(table, source, target, asOf);
    if p in Map(DirectPath(asOf.Some?), d) {
      var e := MapOrigin(DirectPath(asOf.Some?), d, p);
      assert e in table && IsDirect(e, source, target, asOf);
    } else {
      var q := MapOrigin(TwoHopPath(asOf.Some?), t, p);
      assert q == (q.0, q.1) && q.0 in table && q.1 in table && IsTwoHop((q.0, q.1), source, target, asOf);
    }
  }

  // ----------------------------------------------------------- why both conditions are needed --

  lemma TwoHopPreorder()
    ensures Preorder(TwoHopLe)
  {
    LexIsPreorder();
    forall a: string, b: string | LexLe(a, b) && LexLe(b, a) ensures a == b {
      LexTotal(a, b);
    }
  }

  lemma DirectPreorder()
    ensures Preorder(DirectLe)
  {
    LexIsPreorder();
  }

  // With no direct edge, two chains that the query and the final sort rank differently, and limit 1, the
  // path that should have come first is cut off.
  lemma DisagreementBreaksTheMerge(
    table: seq<Edge>, source: string, target: string, asOf: Option<int>, p: (Edge, Edge), q: (Edge, Edge))
    requires p in TwoHopPairs(table, source, target, asOf) && q in TwoHopPairs(table, source, target, asOf)
    requires forall x | x in TwoHopPairs(table, source, target, asOf) :: x == p || x == q
    requires DirectEdges(table, source, target, asOf) == []
    requires !TwoHopLe(q, p) && !PathLe(TwoHopPath(asOf.Some?)(p), TwoHopPath(asOf.Some?)(q))
    ensures Fetched(table, source, target, 2, asOf, 1) != Ranked(table, source, target, 2, asOf, 1)
  {
    hide TwoHopLe, PathLe, IsTwoHop, IsDirect, TwoHopPairs, DirectEdges, Fetched, Ranked, TwoHopPath;
    var best, fetched := Ranked(table, source, target, 2, asOf, 1), Fetched(table, source, target, 2, asOf, 1);
    PathPreorder();
    ChainIsBest(table, source, target, asOf, 1, q);
    forall path | path in fetched ensures path == TwoHopPath(asOf.Some?)(p) {
      FetchedChain(table, source, target, asOf, p, q, path);
    }
    var other := TwoHopPath(asOf.Some?)(q);
    var path := if other in best then other else best[0];
    assert path in best && path != TwoHopPath(asOf.Some?)(p);
  }

  lemma ChainIsBest(
    table: seq<Edge>, source: string, target: string, asOf: Option<int>, limit: nat, q: (Edge, Edge))
    requires q in TwoHopPairs(table, source, target, asOf)
    ensures var best := Ranked(table, source, target, 2, asOf, limit);
            var path := TwoHopPath(asOf.Some?)(q);
            path in best || (|best| == limit && forall p | p in best :: PathLe(p, path))
  {
    assert q == (q.0, q.1);
    RankedIsBest(table, source, target, asOf, limit, q.0, q.1);
  }

  // All that the limited queries fetch then is the chain that they rank first.
  lemma FetchedChain(
    table: seq<Edge>, source: string, target: string, asOf: Option<int>, p: (Edge, Edge), q: (Edge, Edge), path: GraphPath)
    requires p in TwoHopPairs(table, source, target, asOf)
    requires forall x | x in TwoHopPairs(table, source, target, asOf) :: x == p || x == q
    requires DirectEdges(table, source, target, asOf) == [] && !TwoHopLe(q, p)
    requires path in Fetched(table, source, target, 2, asOf, 1)
    ensures path == TwoHopPath(asOf.Some?)(p)
  {
    hide TwoHopPairs, DirectEdges, PathLe, TwoHopLe, DirectPath, TwoHopPath;
    var best := BestTwoHop(table, source, target, asOf, 1);
    assert BestDirect(table, source, target, asOf, 1) == [];
    assert Map(DirectPath(asOf.Some?), []) == [];
    PathPreorder();
    TwoHopPreorder();
    TakenFrom(PathLe, 1, Map(DirectPath(asOf.Some?), []) + Map(TwoHopPath(asOf.Some?), best), path);
    var x := MapOrigin(TwoHopPath(asOf.Some?), best, path);
    FirstIsFirst(TwoHopLe, TwoHopPairs(table, source, target, asOf), p, q, x);
  }

  function Relation(id: string, subject: string, relatedTo: string): Edge {
    Edge(id, subject, relatedTo, true, "active", "knows", 1.0, 1.0, 1, 0, None, None)
  }

  // Two chains of equal score from s to t, with ids x and b, and y and d.
  function TwoChains(x: string, b: string, y: string, d: string): seq<Edge> {
    [Relation(x, "s", "m"), Relation(b, "m", "t"), Relation(y, "s", "n"), Relation(d, "n", "t")]
  }

  lemma ChainsThere(x: string, b: string, y: string, d: string, q: (Edge, Edge))
    requires q.0 in TwoChains(x, b, y, d) && q.1 in TwoChains(x, b, y, d)
    ensures !IsDirect(q.0, "s", "t", None)
    ensures IsTwoHop(q, "s", "t", None) <==>
            q == (Relation(x, "s", "m"), Relation(b, "m", "t")) || q == (Relation(y, "s", "n"), Relation(d, "n", "t"))
  {
  }

  lemma OnlyTwoChains(x: string, b: string, y: string, d: string)
    ensures var t := TwoHopPairs(TwoChains(x, b, y, d), "s", "t", None);
            var p, q := (Relation(x, "s", "m"), Relation(b, "m", "t")), (Relation(y, "s", "n"), Relation(d, "n", "t"));
            p in t && q in t && forall r | r in t :: r == p || r == q
    ensures DirectEdges(TwoChains(x, b, y, d), "s", "t", None) == []
  {
    var table := TwoChains(x, b, y, d);
    var p, q := (Relation(x, "s", "m"), Relation(b, "m", "t")), (Relation(y, "s", "n"), Relation(d, "n", "t"));
    assert p.0 == table[0] && p.1 == table[1] && q.0 == table[2] && q.1 == table[3];
    hide Relation, TwoChains, IsTwoHop, IsDirect;
    ChainsThere(x, b, y, d, p);
    ChainsThere(x, b, y, d, q);
    assert p in Pairs(table, table) && q in Pairs(table, table);
    forall r | r in TwoHopPairs(table, "s", "t", None) ensures r == p || r == q {
      ChainsThere(x, b, y, d, r);
    }
    var direct := DirectEdges(table, "s", "t", None);
    if direct != [] {
      assert direct[0] in direct;
      ChainsThere(x, b, y, d, (direct[0], direct[0]));
    }
  }

  lemma EqualScores(p: (Edge, Edge), q: (Edge, Edge))
    requires p.0.confidence == p.0.strength == p.1.confidence == p.1.strength == 1.0
    requires q.0.confidence == q.0.strength == q.1.confidence == q.1.strength == 1.0
    ensures TwoHopLe(p, q) == PairLe(p.0.edgeId, p.1.edgeId, q.0.edgeId, q.1.edgeId)
    ensures PathLe(TwoHopPath(false)(p), TwoHopPath(false)(q))
            == LexLe(p.0.edgeId + ([SEPARATOR] + p.1.edgeId), q.0.edgeId + ([SEPARATOR] + q.1.edgeId))
  {
    hide LexLe;
    TwoHopScore(false, p);
    TwoHopScore(false, q);
  }

  ghost predicate Merges(x: string, b: string, y: string, d: string) {
    Fetched(TwoChains(x, b, y, d), "s", "t", 2, None, 1) == Ranked(TwoChains(x, b, y, d), "s", "t", 2, None, 1)
  }

  // Which ids of two edges that leave the source keep the merge exact, however the chains go on: exactly
  // those of which neither continues the other with a character up to U+001F.
  lemma MergeIsExactIff(x: string, y: string)
    requires x != y
    ensures (forall b, d | DistinctIds(TwoChains(x, b, y, d)) :: Merges(x, b, y, d))
            <==> !Collides(SEPARATOR, x, y) && !Collides(SEPARATOR, y, x)
  {
    if Collides(SEPARATOR, x, y) {
      var b, d := CollisionReorders(SEPARATOR, x, y);
      LongIdsAreDistinct(x, b, y, d);
      ReorderedChains(x, b, y, d);
    } else if Collides(SEPARATOR, y, x) {
      var d, b := CollisionReorders(SEPARATOR, y, x);
      LongIdsAreDistinct(y, d, x, b);
      ReorderedChains(x, b, y, d);
    } else {
      forall b, d | DistinctIds(TwoChains(x, b, y, d)) ensures Merges(x, b, y, d) {
        ApartChains(x, b, y, d);
      }
    }
  }

  lemma CollidesNotWithItself(x: string)
    ensures !Collides(SEPARATOR, x, x)
  {
  }

  lemma ApartChains(x: string, b: string, y: string, d: string)
    requires !Collides(SEPARATOR, x, y) && !Collides(SEPARATOR, y, x)
    ensures Merges(x, b, y, d)
  {
    hide TwoChains, Fetched, Ranked, TwoHopPairs, DirectEdges, Collides;
    OnlyTwoChains(x, b, y, d);
    assert !Collides(SEPARATOR, x, x) && !Collides(SEPARATOR, y, y) by {
      CollidesNotWithItself(x);
      CollidesNotWithItself(y);
    }
    MergeIsExact(TwoChains(x, b, y, d), "s", "t", 2, None, 1);
  }

  lemma LongIdsAreDistinct(x: string, b: string, y: string, d: string)
    requires x != y && |x| <= |y| < |d| < |b|
    ensures DistinctIds(TwoChains(x, b, y, d)) && DistinctIds(TwoChains(y, d, x, b))
  {
  }

  lemma ReorderedChains(x: string, b: string, y: string, d: string)
    requires x != y
    requires || (LexLe(x, y) && !LexLe(x + ([SEPARATOR] + b), y + ([SEPARATOR] + d)))
             || (LexLe(y, x) && !LexLe(y + ([SEPARATOR] + d), x + ([SEPARATOR] + b)))
    ensures !Merges(x, b, y, d)
  {
    var p, q := (Relation(x, "s", "m"), Relation(b, "m", "t")), (Relation(y, "s", "n"), Relation(d, "n", "t"));
    OnlyTwoChains(x, b, y, d);
    EqualScores(p, q);
    EqualScores(q, p);
    LexTotal(x, y);
    hide LexLe, TwoChains, TwoHopPairs, DirectEdges, TwoHopLe, PathLe, TwoHopPath, Relation;
    if LexLe(x, y) && !LexLe(x + ([SEPARATOR] + b), y + ([SEPARATOR] + d)) {
      DisagreementBreaksTheMerge(TwoChains(x, b, y, d), "s", "t", None, p, q);
    } else {
      DisagreementBreaksTheMerge(TwoChains(x, b, y, d), "s", "t", None, q, p);
    }
  }

  // ------------------------------------------------------------------------------ negative weights --

  ghost predicate RanksLike(e: Edge, f: Edge) {
    && DirectLe(e, f) == PathLe(DirectPath(false)(e), DirectPath(false)(f))
    && DirectLe(f, e) == PathLe(DirectPath(false)(f), DirectPath(false)(e))
  }

  // An edge keeps its rank against every edge of non-negative weight exactly when it is fairly weighed:
  // when neither factor is negative, or one is and the other is zero.
  lemma FairlyWeighedIff(e: Edge)
    ensures (forall f: Edge | f.confidence >= 0.0 && f.strength >= 0.0 :: RanksLike(e, f)) <==> FairlyWeighed(e)
    ensures FairlyWeighed(e) <==> (e.confidence >= 0.0 && e.strength >= 0.0) || e.confidence * e.strength == 0.0
  {
    SignsDecide(e);
    if FairlyWeighed(e) {
      forall f: Edge | f.confidence >= 0.0 && f.strength >= 0.0 ensures RanksLike(e, f) {
        SignsDecide(f);
        DirectOrderAgrees(false, e, f);
        DirectOrderAgrees(false, f, e);
      }
    } else {
      var f := e.(confidence := 1.0, strength := if Weight(e) > 0.0 then Weight(e) / 2.0 else 0.0);
      DirectScore(false, e);
      DirectScore(false, f);
      LexTotal(e.edgeId, e.edgeId);
      assert !RanksLike(e, f);
    }
  }

  lemma SignsDecide(e: Edge)
    ensures FairlyWeighed(e) <==> (e.confidence >= 0.0 && e.strength >= 0.0) || e.confidence * e.strength == 0.0
    ensures !FairlyWeighed(e) ==> StepScore(StepOf(e)) == 0.0
  {
  }

  // Two negative factors make a large weight of a score of nothing: with limit 1 they cut off any path
  // of smaller weight.
  lemma NegativeWeightsBreakTheMerge(e: Edge, f: Edge, source: string, target: string)
    requires IsDirect(e, source, target, None) && IsDirect(f, source, target, None)
    requires e.confidence < 0.0 && e.strength < 0.0
    requires f.confidence > 0.0 && f.strength > 0.0 && Weight(f) < Weight(e)
    ensures Fetched([e, f], source, target, 1, None, 1) != Ranked([e, f], source, target, 1, None, 1)
  {
    var best := Ranked([e, f], source, target, 1, None, 1);
    SignsBreakTheOrder(e, f);
    DirectIsBest([e, f], source, target, 1, None, 1, f);
    hide DirectLe, PathLe, IsDirect, Fetched, Ranked;
    PathPreorder();
    var fetched := Fetched([e, f], source, target, 1, None, 1);
    forall path | path in fetched ensures path == DirectPath(false)(e) {
      FetchedEdge(e, f, source, target, path);
    }
    var other := DirectPath(false)(f);
    var path := if other in best then other else best[0];
    assert path in best && path != DirectPath(false)(e);
  }

  lemma SignsBreakTheOrder(e: Edge, f: Edge)
    requires e.confidence < 0.0 && e.strength < 0.0
    requires f.confidence > 0.0 && f.strength > 0.0 && Weight(f) < Weight(e)
    ensures !DirectLe(f, e) && !PathLe(DirectPath(false)(e), DirectPath(false)(f))
  {
    DirectScore(false, e);
    DirectScore(false, f);
    SignsDecide(e);
    SignsDecide(f);
    PositiveProduct(e.confidence * -1.0, e.strength * -1.0);
    PositiveProduct(f.strength, f.confidence);
    var x, y := StepScore(StepOf(e)), StepScore(StepOf(f));
    assert x == 0.0 && y == Weight(f) > 0.0;
    LargerSquare(y, x);
  }

  lemma FetchedEdge(e: Edge, f: Edge, source: string, target: string, path: GraphPath)
    requires IsDirect(e, source, target, None) && !DirectLe(f, e)
    requires path in Fetched([e, f], source, target, 1, None, 1)
    ensures path == DirectPath(false)(e)
  {
    var d, best := DirectEdges([e, f], source, target, None), BestDirect([e, f], source, target, None, 1);
    assert e in d && forall x | x in d :: x == e || x == f;
    hide PathLe, DirectLe, DirectPath, IsDirect, DirectEdges;
    PathPreorder();
    DirectPreorder();
    TakenFrom(PathLe, 1, Map(DirectPath(false), best) + [], path);
    var x := MapOrigin(DirectPath(false), best, path);
    FirstIsFirst(DirectLe, d, e, f, x);
  }
}
