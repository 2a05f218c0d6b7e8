/**
  The multi-hop walk over the co-occurrence graph. The source calls its search
  a heuristic; the relaxation rule makes it exact.
*/
module GraphWalk {
  import opened Wrappers
  import opened Bytes
  import opened Sorting
  import opened CooccurrenceLedger

  /** One ranked pair: an undirected edge with its decayed score. */
  datatype Edge = Edge(lo: Topic, hi: Topic, w: real)

  datatype Hop = Hop(to: Topic, w: real)

  datatype GraphNeighbor = GraphNeighbor(topic: Topic, affinity: real, hops: nat)

  /** The graph and the limits of one search. */
  datatype Search = Search(edges: seq<Edge>, seed: Topic, decay: real, minAffinity: real)

  function Min(x: real, y: real): real {
    if x <= y then x else y
  }

  /** A product, by a name under which proofs can keep it folded. */
  function Times(x: real, y: real): real {
    x * y
  }

  function Pow(d: real, n: nat): real {
    if n == 0 then 1.0 else Times(Pow(d, n - 1), d)
  }

  /** What an affinity at `hops` edges is scaled by: nothing for the first, one decay for each further one. */
  function Factor(g: Search, hops: nat): real
    requires hops > 0
  {
    Pow(g.decay, hops - 1)
  }

  // ---- Walks ----

  /** A positive edge joins `u` and `v`. */
  ghost predicate Adjacent(edges: seq<Edge>, u: Topic, h: Hop) {
    h.w > 0.0 && (Edge(u, h.to, h.w) in edges || Edge(h.to, u, h.w) in edges)
  }

  function End(g: Search, p: seq<Hop>): Topic {
    if p == [] then g.seed else p[|p| - 1].to
  }

  /** `p` follows positive edges from the seed. */
  ghost predicate IsWalk(g: Search, p: seq<Hop>) {
    p != [] ==> Adjacent(g.edges, End(g, p[..|p| - 1]), p[|p| - 1]) && IsWalk(g, p[..|p| - 1])
  }

  /** The weakest edge of a walk. */
  function Bottleneck(p: seq<Hop>): real
    requires p != []
  {
    if |p| == 1 then p[0].w else Min(Bottleneck(p[..|p| - 1]), p[|p| - 1].w)
  }

  /** The affinity of an arrival at `hops` edges over weakest edge `b`. */
  function Score(g: Search, b: real, hops: nat): real
    requires hops > 0
  {
    Times(b, Factor(g, hops))
  }

  function Affinity(g: Search, p: seq<Hop>): real
    requires p != []
  {
    Score(g, Bottleneck(p), |p|)
  }

  /** `x` is the best arrival at its topic over all walks of at most `hops` edges: highest affinity, then fewest hops. */
  ghost predicate Strongest(g: Search, hops: nat, x: GraphNeighbor) {
    && x.topic != g.seed
    && x.affinity >= g.minAffinity
    && (exists p :: IsWalk(g, p) && 0 < |p| == x.hops <= hops && End(g, p) == x.topic && Affinity(g, p) == x.affinity)
    && (forall p :: IsWalk(g, p) && 0 < |p| <= hops && End(g, p) == x.topic ==>
          Affinity(g, p) < x.affinity || (Affinity(g, p) == x.affinity && x.hops <= |p|))
  }

  predicate StrongerFirst(a: GraphNeighbor, b: GraphNeighbor) {
    a.affinity > b.affinity || (a.affinity == b.affinity && LexLt(a.topic, b.topic))
  }

  /** The full answer: every topic's strongest arrival, in order. */
  ghost predicate IsNeighborhood(g: Search, hops: nat, full: seq<GraphNeighbor>) {
    && SortedBy(full, StrongerFirst)
    && (forall x :: x in full <==> Strongest(g, hops, x))
  }

  // ---- Arithmetic of affinities ----

  lemma TimesUnit(x: real, d: real)
    requires x >= 0.0 && 0.0 <= d <= 1.0
    ensures 0.0 <= Times(x, d) <= x
  {
  }

  lemma TimesGrows(x: real, y: real, c: real)
    requires x <= y && c >= 0.0
    ensures Times(x, c) <= Times(y, c) && Times(c, x) <= Times(c, y)
  {
  }

  lemma TimesOne(x: real)
    ensures Times(x, 1.0) == x && Times(1.0, x) == x
  {
  }

  lemma TimesAssociates(x: real, y: real, z: real)
    ensures Times(Times(x, y), z) == Times(x, Times(y, z))
  {
  }

  lemma {:induction false} PowBounds(d: real, n: nat)
    requires 0.0 <= d <= 1.0
    ensures 0.0 <= Pow(d, n) <= 1.0
  {
    hide Times;
    if n > 0 {
      PowBounds(d, n - 1);
      TimesUnit(Pow(d, n - 1), d);
    }
  }

  predicate UnitDecay(g: Search) {
    0.0 <= g.decay <= 1.0
  }

  lemma FactorStep(g: Search, k: nat)
    requires UnitDecay(g) && k > 0
    ensures Factor(g, k + 1) == Times(Factor(g, k), g.decay)
    ensures 0.0 <= Factor(g, k + 1) <= Factor(g, k) <= 1.0
    ensures Factor(g, 1) == 1.0
  {
    hide Times;
    PowBounds(g.decay, k - 1);
    TimesUnit(Pow(g.decay, k - 1), g.decay);
  }

  lemma {:induction false} FactorShrinks(g: Search, m: nat, n: nat)
    requires UnitDecay(g) && 0 < m <= n
    ensures 0.0 <= Factor(g, n) <= Factor(g, m) <= 1.0
  {
    hide Times, Factor;
    FactorStep(g, n);
    if m < n {
      FactorShrinks(g, m, n - 1);
      FactorStep(g, n - 1);
    }
  }

  /** Affinity after one more edge of weight `w`, from affinity `a` at `k` hops. */
  function Extended(g: Search, a: real, k: nat, w: real): real {
    Min(Times(a, g.decay), Times(w, Factor(g, k + 1)))
  }

  lemma TimesMin(x: real, y: real, c: real)
    requires c >= 0.0
    ensures Times(Min(x, y), c) == Min(Times(x, c), Times(y, c))
  {
    hide Times;
    if x <= y { TimesGrows(x, y, c); } else { TimesGrows(y, x, c); }
  }

  lemma ExtendedFromBottleneck(g: Search, b: real, k: nat, w: real, b': real, k': nat)
    requires UnitDecay(g) && k > 0 && k' == k + 1 && b' == Min(b, w)
    ensures Score(g, b', k') == Extended(g, Score(g, b, k), k, w)
  {
    hide Times, Factor;
    FactorStep(g, k);
    TimesMin(b, w, Factor(g, k'));
    TimesAssociates(b, Factor(g, k), g.decay);
  }

  lemma ExtendedGrows(g: Search, a: real, k: nat, a': real, k': nat, w: real)
    requires UnitDecay(g) && a <= a' && k' <= k && w >= 0.0
    ensures Extended(g, a, k, w) <= Extended(g, a', k', w)
  {
    hide Times, Factor;
    TimesGrows(a, a', g.decay);
    FactorShrinks(g, k' + 1, k + 1);
    TimesGrows(Factor(g, k + 1), Factor(g, k' + 1), w);
  }

  lemma ExtendedBounds(g: Search, a: real, k: nat, w: real)
    requires UnitDecay(g) && a >= 0.0 && w >= 0.0
    ensures Extended(g, a, k, w) <= a && Extended(g, a, k, w) <= w
  {
    hide Times, Factor;
    TimesUnit(a, g.decay);
    FactorShrinks(g, 1, k + 1);
    TimesUnit(w, Factor(g, k + 1));
  }

  lemma {:induction false} BottleneckPositive(g: Search, p: seq<Hop>)
    requires p != [] && IsWalk(g, p)
    ensures Bottleneck(p) > 0.0
  {
    if |p| > 1 { BottleneckPositive(g, p[..|p| - 1]); }
  }

  lemma AffinityNonNegative(g: Search, p: seq<Hop>)
    requires UnitDecay(g) && p != [] && IsWalk(g, p)
    ensures Affinity(g, p) >= 0.0
  {
    BottleneckPositive(g, p);
    FactorShrinks(g, 1, |p|);
    hide Times, Factor;
    TimesUnit(Bottleneck(p), Factor(g, |p|));
  }

  lemma AffinityStep(g: Search, p: seq<Hop>)
    requires UnitDecay(g) && |p| > 1
    ensures Affinity(g, p) == Extended(g, Affinity(g, p[..|p| - 1]), |p| - 1, p[|p| - 1].w)
  {
    var q, w, k := p[..|p| - 1], p[|p| - 1].w, |p| - 1;
    ExtendedFromBottleneck(g, Bottleneck(q), k, w, Bottleneck(p), |p|);
  }

  lemma AffinityOfLonger(g: Search, p: seq<Hop>)
    requires UnitDecay(g) && |p| > 1 && IsWalk(g, p)
    ensures Affinity(g, p) <= Affinity(g, p[..|p| - 1]) && Affinity(g, p) <= p[|p| - 1].w
  {
    AffinityStep(g, p);
    AffinityNonNegative(g, p[..|p| - 1]);
    ExtendedBounds(g, Affinity(g, p[..|p| - 1]), |p| - 1, p[|p| - 1].w);
  }

  /** An affinity is the weight of the weakest edge, once for one hop and times the decay for each further one. */
  lemma {:induction false} AffinityMeaning(g: Search, p: seq<Hop>, weakest: nat, power: seq<real>)
    requires weakest < |p| && forall i :: 0 <= i < |p| ==> p[weakest].w <= p[i].w
    requires |power| == |p| && power[0] == 1.0 && forall k :: 0 < k < |p| ==> power[k] == power[k - 1] * g.decay
    ensures Affinity(g, p) == p[weakest].w * power[|p| - 1]
  {
    var i := BottleneckIsWeakest(p);
    assert p[weakest].w == p[i].w;
    PowIsPower(g, power, |p| - 1);
    hide Pow, Bottleneck;
    assert Factor(g, |p|) == power[|p| - 1];
  }

  lemma {:induction false} BottleneckIsWeakest(p: seq<Hop>) returns (i: nat)
    requires p != []
    ensures i < |p| && p[i].w == Bottleneck(p)
    ensures forall j :: 0 <= j < |p| ==> Bottleneck(p) <= p[j].w
  {
    i := 0;
    if |p| > 1 {
      i := BottleneckIsWeakest(p[..|p| - 1]);
      if p[|p| - 1].w < p[i].w { i := |p| - 1; }
    }
  }

  lemma {:induction false} PowIsPower(g: Search, power: seq<real>, n: nat)
    requires n < |power| && power[0] == 1.0 && forall k :: 0 < k < |power| ==> power[k] == power[k - 1] * g.decay
    ensures Pow(g.decay, n) == power[n]
  {
    if n > 0 { PowIsPower(g, power, n - 1); }
  }

  // ---- What the search keeps ----

  datatype Best = Best(affinity: real, hops: nat)

  datatype Item = Item(topic: Topic, bottleneck: real)

  ghost predicate Dominates(best: map<Topic, Best>, v: Topic, a: real, k: nat) {
    v in best && (best[v].affinity > a || (best[v].affinity == a && best[v].hops <= k))
  }

  ghost predicate Reaches(g: Search, v: Topic, b: real, k: nat) {
    exists p :: IsWalk(g, p) && |p| == k && k > 0 && End(g, p) == v && Bottleneck(p) == b
  }

  lemma ReachesFurther(g: Search, u: Topic, b: real, k: nat, h: Hop)
    requires Reaches(g, u, b, k) && Adjacent(g.edges, u, h)
    ensures Reaches(g, h.to, Min(b, h.w), k + 1)
  {
    var p :| IsWalk(g, p) && |p| == k && k > 0 && End(g, p) == u && Bottleneck(p) == b;
    assert (p + [h])[..|p|] == p;
    assert IsWalk(g, p + [h]) && End(g, p + [h]) == h.to;
  }

  lemma ReachesAtOnce(g: Search, h: Hop)
    requires Adjacent(g.edges, g.seed, h)
    ensures Reaches(g, h.to, h.w, 1)
  {
    assert [h][..0] == [];
    assert IsWalk(g, [h]) && End(g, [h]) == h.to;
  }

  /** Every recorded arrival is a real walk of its length, within the limits. */
  ghost predicate Sound(g: Search, best: map<Topic, Best>, h: nat) {
    forall v :: v in best ==>
      && v != g.seed && 0 < best[v].hops <= h && best[v].affinity >= g.minAffinity
      && exists b :: Reaches(g, v, b, best[v].hops) && best[v].affinity == Score(g, b, best[v].hops)
  }

  /** No walk of at most `h` edges beats what is recorded. */
  ghost predicate Complete(g: Search, best: map<Topic, Best>, h: nat) {
    forall p :: IsWalk(g, p) && 0 < |p| <= h && End(g, p) != g.seed && Affinity(g, p) >= g.minAffinity ==>
      Dominates(best, End(g, p), Affinity(g, p), |p|)
  }

  /** Every admissible one-edge extension of `from[u]` is dominated in `best`. */
  ghost predicate ExtendsFrom(g: Search, from: map<Topic, Best>, u: Topic, best: map<Topic, Best>)
    requires u in from
  {
    forall h :: Adjacent(g.edges, u, h) && h.to != g.seed && Extended(g, from[u].affinity, from[u].hops, h.w) >= g.minAffinity ==>
      Dominates(best, h.to, Extended(g, from[u].affinity, from[u].hops, h.w), from[u].hops + 1)
  }

  ghost predicate Closed(g: Search, best: map<Topic, Best>, h: nat) {
    forall u :: u in best && best[u].hops < h ==> ExtendsFrom(g, best, u, best)
  }

  /** The frontier holds arrivals at exactly `h` hops, among them the recorded ones. */
  ghost predicate FrontierOf(g: Search, best: map<Topic, Best>, frontier: seq<Item>, h: nat) {
    && (forall x :: x in frontier ==> x.topic != g.seed && Reaches(g, x.topic, x.bottleneck, h))
    && (forall u :: u in best && best[u].hops == h && h > 0 ==>
          exists b :: Item(u, b) in frontier && best[u].affinity == Score(g, b, h))
  }

  ghost predicate Improved(best: map<Topic, Best>, best': map<Topic, Best>) {
    forall v :: v in best ==> Dominates(best', v, best[v].affinity, best[v].hops)
  }

  /** Records of the hop in progress are new; all others are as they were. */
  ghost predicate NewOrOld(best: map<Topic, Best>, best': map<Topic, Best>, h: nat) {
    forall u :: u in best' ==> (u in best && best'[u] == best[u]) || best'[u].hops == h
  }

  lemma ThroughRecord(g: Search, best: map<Topic, Best>, best': map<Topic, Best>, h: nat, u: Topic, a: real, e: Hop)
    requires UnitDecay(g) && Dominates(best, u, a, h) && best[u].hops <= h
    requires ExtendsFrom(g, best, u, best')
    requires Adjacent(g.edges, u, e) && e.to != g.seed && Extended(g, a, h, e.w) >= g.minAffinity
    ensures Dominates(best', e.to, Extended(g, a, h, e.w), h + 1)
  {
    ExtendedGrows(g, a, h, best[u].affinity, best[u].hops, e.w);
    assert Dominates(best', e.to, Extended(g, best[u].affinity, best[u].hops, e.w), best[u].hops + 1);
  }

  lemma OneEdge(g: Search, e: Hop)
    requires Adjacent(g.edges, g.seed, e)
    ensures IsWalk(g, [e]) && End(g, [e]) == e.to && Affinity(g, [e]) == e.w
  {
    assert [e][..|[e]| - 1] == [];
    assert IsWalk(g, []);
  }

  /** A walk that comes back to the seed is no better than its last edge alone. */
  lemma ThroughSeed(g: Search, best: map<Topic, Best>, p: seq<Hop>, h: nat)
    requires UnitDecay(g) && |p| == h + 1 && h > 0 && IsWalk(g, p) && Complete(g, best, h)
    requires End(g, p[..h]) == g.seed && End(g, p) != g.seed && Affinity(g, p) >= g.minAffinity
    ensures Dominates(best, End(g, p), Affinity(g, p), |p|)
  {
    var e := p[h];
    AffinityOfLonger(g, p);
    OneEdge(g, e);
    assert Dominates(best, e.to, Affinity(g, [e]), 1);
  }

  lemma LongerWalk(g: Search, best: map<Topic, Best>, best': map<Topic, Best>, p: seq<Hop>, h: nat)
    requires UnitDecay(g) && h > 0 && Sound(g, best, h) && Complete(g, best, h)
    requires forall u :: u in best ==> ExtendsFrom(g, best, u, best')
    requires |p| == h + 1 && IsWalk(g, p) && End(g, p[..h]) != g.seed && End(g, p) != g.seed && Affinity(g, p) >= g.minAffinity
    ensures Dominates(best', End(g, p), Affinity(g, p), |p|)
  {
    var q, u := p[..h], End(g, p[..h]);
    AffinityStep(g, p);
    AffinityOfLonger(g, p);
    assert Dominates(best, u, Affinity(g, q), h);
    ThroughRecord(g, best, best', h, u, Affinity(g, q), p[h]);
  }

  /** One hop further: if every record's extensions are dominated, longer walks are too. */
  lemma CompleteNext(g: Search, best: map<Topic, Best>, best': map<Topic, Best>, h: nat)
    requires UnitDecay(g) && h > 0
    requires Sound(g, best, h) && Complete(g, best, h) && Improved(best, best')
    requires forall u :: u in best ==> ExtendsFrom(g, best, u, best')
    ensures Complete(g, best', h + 1)
  {
    forall p | IsWalk(g, p) && 0 < |p| <= h + 1 && End(g, p) != g.seed && Affinity(g, p) >= g.minAffinity
      ensures Dominates(best', End(g, p), Affinity(g, p), |p|)
    {
      if |p| == h + 1 && End(g, p[..h]) != g.seed {
        LongerWalk(g, best, best', p, h);
      } else {
        if |p| == h + 1 { ThroughSeed(g, best, p, h); }
        assert Dominates(best, End(g, p), Affinity(g, p), |p|);
      }
    }
  }

  lemma ClosedNext(g: Search, best: map<Topic, Best>, best': map<Topic, Best>, h: nat)
    requires Sound(g, best, h) && NewOrOld(best, best', h + 1)
    requires forall u :: u in best ==> ExtendsFrom(g, best, u, best')
    ensures Closed(g, best', h + 1)
  {
    forall u | u in best' && best'[u].hops < h + 1 ensures ExtendsFrom(g, best', u, best') {
      assert ExtendsFrom(g, best, u, best');
    }
  }

  lemma FromFrontier(g: Search, best: map<Topic, Best>, b: real, best': map<Topic, Best>, h: nat, u: Topic)
    requires UnitDecay(g) && h > 0 && u in best && best[u].hops == h
    requires best[u].affinity == Score(g, b, h) && ItemExtended(g, Item(u, b), best', h)
    ensures ExtendsFrom(g, best, u, best')
  {
    forall e | Adjacent(g.edges, u, e) && e.to != g.seed && Extended(g, best[u].affinity, h, e.w) >= g.minAffinity
      ensures Dominates(best', e.to, Extended(g, best[u].affinity, h, e.w), h + 1)
    {
      FromItem(g, Item(u, b), best', h, e, best[u].affinity);
    }
  }

  lemma FromOlder(g: Search, best: map<Topic, Best>, best': map<Topic, Best>, u: Topic)
    requires u in best && ExtendsFrom(g, best, u, best) && Improved(best, best')
    ensures ExtendsFrom(g, best, u, best')
  {
    forall e | Adjacent(g.edges, u, e) && e.to != g.seed && Extended(g, best[u].affinity, best[u].hops, e.w) >= g.minAffinity
      ensures Dominates(best', e.to, Extended(g, best[u].affinity, best[u].hops, e.w), best[u].hops + 1)
    {
      assert Dominates(best, e.to, Extended(g, best[u].affinity, best[u].hops, e.w), best[u].hops + 1);
    }
  }

  /** The frontier's extensions are done and the older records were closed before: all records' extensions are dominated. */
  lemma AllExtended(g: Search, best: map<Topic, Best>, frontier: seq<Item>, best': map<Topic, Best>, h: nat)
    requires UnitDecay(g) && h > 0
    requires Sound(g, best, h) && Closed(g, best, h) && FrontierOf(g, best, frontier, h) && Improved(best, best')
    requires forall x :: x in frontier ==> ItemExtended(g, x, best', h)
    ensures forall u :: u in best ==> ExtendsFrom(g, best, u, best')
  {
    forall u | u in best ensures ExtendsFrom(g, best, u, best') {
      if best[u].hops < h {
        FromOlder(g, best, best', u);
      } else {
        var b :| Item(u, b) in frontier && best[u].affinity == Score(g, b, h);
        FromFrontier(g, best, b, best', h, u);
      }
    }
  }

  lemma FromItem(g: Search, x: Item, best: map<Topic, Best>, h: nat, e: Hop, a: real)
    requires UnitDecay(g) && h > 0 && ItemExtended(g, x, best, h) && a == Score(g, x.bottleneck, h)
    requires Adjacent(g.edges, x.topic, e) && e.to != g.seed && Extended(g, a, h, e.w) >= g.minAffinity
    ensures Dominates(best, e.to, Extended(g, a, h, e.w), h + 1)
  {
    ExtendedFromBottleneck(g, x.bottleneck, h, e.w, Min(x.bottleneck, e.w), h + 1);
    assert HopDone(g, x, best, h, e);
  }

  ghost predicate HopDone(g: Search, x: Item, best: map<Topic, Best>, h: nat, e: Hop) {
    var a := Score(g, Min(x.bottleneck, e.w), h + 1);
    e.to != g.seed && a >= g.minAffinity ==> Dominates(best, e.to, a, h + 1)
  }

  ghost predicate ItemExtended(g: Search, x: Item, best: map<Topic, Best>, h: nat) {
    forall e :: Adjacent(g.edges, x.topic, e) ==> HopDone(g, x, best, h, e)
  }

  // ---- The search ----

  function Neigh(adj: map<Topic, seq<Hop>>, u: Topic): seq<Hop> {
    if u in adj then adj[u] else []
  }

  /** Each topic's list holds exactly its positive edges. */
  ghost predicate AdjacencyOf(adj: map<Topic, seq<Hop>>, edges: seq<Edge>) {
    forall u, h :: h in Neigh(adj, u) <==> Adjacent(edges, u, h)
  }

  method BuildAdjacency(edges: seq<Edge>) returns (adj: map<Topic, seq<Hop>>)
    ensures AdjacencyOf(adj, edges)
  {
    adj := map[];
    for i := 0 to |edges|
      invariant AdjacencyOf(adj, edges[..i])
    {
      var e := edges[i];
      assert edges[..i + 1] == edges[..i] + [e];
      if e.w > 0.0 {
        ghost var was := adj;
        adj := adj[e.lo := Neigh(adj, e.lo) + [Hop(e.hi, e.w)]];
        adj := adj[e.hi := Neigh(adj, e.hi) + [Hop(e.lo, e.w)]];
        forall u, h ensures h in Neigh(adj, u) <==> h in Neigh(was, u) || (u == e.lo && h == Hop(e.hi, e.w)) || (u == e.hi && h == Hop(e.lo, e.w)) {
        }
      }
    }
    assert edges[..|edges|] == edges;
  }

  /** Record an arrival that beats the current one, and queue it for the next hop. */
  method Relax(best: map<Topic, Best>, frontier: seq<Item>, v: Topic, affinity: real, bottleneck: real, hops: nat)
    returns (best': map<Topic, Best>, frontier': seq<Item>)
    ensures Dominates(best', v, affinity, hops)
    ensures best' == best || (best' == best[v := Best(affinity, hops)] && (v in best ==> !Dominates(best, v, affinity, hops)))
    ensures frontier' == if best' == best then frontier else frontier + [Item(v, bottleneck)]
  {
    var improved := v !in best || affinity > best[v].affinity || (affinity == best[v].affinity && hops < best[v].hops);
    if improved {
      best', frontier' := best[v := Best(affinity, hops)], frontier + [Item(v, bottleneck)];
    } else {
      best', frontier' := best, frontier;
    }
  }

  ghost predicate SearchedTo(g: Search, best: map<Topic, Best>, frontier: seq<Item>, h: nat) {
    Sound(g, best, h) && Complete(g, best, h) && Closed(g, best, h) && FrontierOf(g, best, frontier, h)
  }

  /** Part-way through hop `h`: records only improve, and each new one is queued. */
  ghost predicate MidHop(g: Search, from: map<Topic, Best>, best: map<Topic, Best>, next: seq<Item>, h: nat) {
    Sound(g, best, h) && Improved(from, best) && NewOrOld(from, best, h) && FrontierOf(g, best, next, h)
  }

  lemma RecordStaysSound(g: Search, best: map<Topic, Best>, h: nat, v: Topic, b: real, a: real)
    requires Sound(g, best, h) && h > 0
    requires v != g.seed && Reaches(g, v, b, h) && a == Score(g, b, h) && a >= g.minAffinity
    ensures Sound(g, best[v := Best(a, h)], h)
  {
    hide Score, Reaches;
  }

  lemma RecordIsQueued(g: Search, best: map<Topic, Best>, next: seq<Item>, h: nat, v: Topic, b: real, a: real)
    requires FrontierOf(g, best, next, h) && h > 0
    requires v != g.seed && Reaches(g, v, b, h) && a == Score(g, b, h)
    ensures FrontierOf(g, best[v := Best(a, h)], next + [Item(v, b)], h)
  {
    hide Score, Reaches;
    var best', next' := best[v := Best(a, h)], next + [Item(v, b)];
    forall u | u in best' && best'[u].hops == h
      ensures exists c :: Item(u, c) in next' && best'[u].affinity == Score(g, c, h)
    {
      if u == v {
        assert Item(v, b) in next';
      } else {
        var c :| Item(u, c) in next && best[u].affinity == Score(g, c, h);
        assert Item(u, c) in next';
      }
    }
  }

  lemma RelaxKeeps(g: Search, from: map<Topic, Best>, best: map<Topic, Best>, next: seq<Item>, h: nat, v: Topic, b: real, a: real)
    requires MidHop(g, from, best, next, h) && h > 0
    requires v != g.seed && Reaches(g, v, b, h) && a == Score(g, b, h) && a >= g.minAffinity
    requires v in best ==> !Dominates(best, v, a, h)
    ensures MidHop(g, from, best[v := Best(a, h)], next + [Item(v, b)], h)
    ensures Improved(best, best[v := Best(a, h)])
  {
    hide Score, Reaches;
    RecordStaysSound(g, best, h, v, b, a);
    RecordIsQueued(g, best, next, h, v, b, a);
  }

  /** The edges out of one frontier item, `from` being the records when the hop began. */
  method ExtendItem(g: Search, neigh: seq<Hop>, x: Item, h: nat, ghost from: map<Topic, Best>, best: map<Topic, Best>, next: seq<Item>)
    returns (best': map<Topic, Best>, next': seq<Item>)
    requires UnitDecay(g) && h > 0 && Reaches(g, x.topic, x.bottleneck, h)
    requires forall e :: e in neigh <==> Adjacent(g.edges, x.topic, e)
    requires MidHop(g, from, best, next, h + 1)
    ensures MidHop(g, from, best', next', h + 1) && Improved(best, best')
    ensures ItemExtended(g, x, best', h)
  {
    hide Score, Reaches, MidHop;
    best', next' := best, next;
    for i := 0 to |neigh|
      invariant MidHop(g, from, best', next', h + 1) && Improved(best, best')
      invariant forall e :: e in neigh[..i] ==> HopDone(g, x, best', h, e)
    {
      var e := neigh[i];
      ghost var was := best';
      assert neigh[..i + 1] == neigh[..i] + [e];
      if e.to != g.seed {
        var bottleneck := Min(x.bottleneck, e.w);
        var affinity := Score(g, bottleneck, h + 1);
        if affinity >= g.minAffinity {
          assert e in neigh;
          ReachesFurther(g, x.topic, x.bottleneck, h, e);
          ghost var queue := next';
          best', next' := Relax(best', next', e.to, affinity, bottleneck, h + 1);
          if best' != was { RelaxKeeps(g, from, was, queue, h + 1, e.to, bottleneck, affinity); }
        }
      }
      forall d | d in neigh[..i] ensures HopDone(g, x, best', h, d) {
        assert HopDone(g, x, was, h, d);
      }
    }
    assert neigh[..|neigh|] == neigh;
  }

  method NextHop(g: Search, adj: map<Topic, seq<Hop>>, best: map<Topic, Best>, frontier: seq<Item>, h: nat)
    returns (best': map<Topic, Best>, next: seq<Item>)
    requires UnitDecay(g) && h > 0 && SearchedTo(g, best, frontier, h)
    requires AdjacencyOf(adj, g.edges)
    ensures SearchedTo(g, best', next, h + 1)
  {
    hide SearchedTo, MidHop, ItemExtended;
    best', next := best, [];
    StartHop(g, best, frontier, h);
    for i := 0 to |frontier|
      invariant MidHop(g, best, best', next, h + 1)
      invariant forall x :: x in frontier[..i] ==> ItemExtended(g, x, best', h)
    {
      var x := frontier[i];
      ghost var was := best';
      assert frontier[..i + 1] == frontier[..i] + [x];
      InFrontier(g, best, frontier, h, x);
      best', next := ExtendItem(g, Neigh(adj, x.topic), x, h, best, best', next);
      forall y | y in frontier[..i] ensures ItemExtended(g, y, best', h) {
        ItemStaysExtended(g, y, was, best', h);
      }
    }
    assert frontier[..|frontier|] == frontier;
    FinishHop(g, best, frontier, best', next, h);
  }

  lemma StartHop(g: Search, best: map<Topic, Best>, frontier: seq<Item>, h: nat)
    requires SearchedTo(g, best, frontier, h)
    ensures MidHop(g, best, best, [], h + 1)
  {
  }

  lemma InFrontier(g: Search, best: map<Topic, Best>, frontier: seq<Item>, h: nat, x: Item)
    requires SearchedTo(g, best, frontier, h) && x in frontier
    ensures x.topic != g.seed && Reaches(g, x.topic, x.bottleneck, h)
  {
  }

  lemma FinishHop(g: Search, best: map<Topic, Best>, frontier: seq<Item>, best': map<Topic, Best>, next: seq<Item>, h: nat)
    requires UnitDecay(g) && h > 0 && SearchedTo(g, best, frontier, h) && MidHop(g, best, best', next, h + 1)
    requires forall x :: x in frontier ==> ItemExtended(g, x, best', h)
    ensures SearchedTo(g, best', next, h + 1)
  {
    AllExtended(g, best, frontier, best', h);
    CompleteNext(g, best, best', h);
    ClosedNext(g, best, best', h);
  }

  lemma ItemStaysExtended(g: Search, x: Item, best: map<Topic, Best>, best': map<Topic, Best>, h: nat)
    requires ItemExtended(g, x, best, h) && Improved(best, best')
    ensures ItemExtended(g, x, best', h)
  {
    forall e | Adjacent(g.edges, x.topic, e) ensures HopDone(g, x, best', h, e) {
      assert HopDone(g, x, best, h, e);
    }
  }

  lemma FirstScore(g: Search, w: real)
    ensures Score(g, w, 1) == w
  {
    TimesOne(w);
  }

  lemma NothingRecorded(g: Search)
    ensures MidHop(g, map[], map[], [], 1)
  {
  }

  lemma NothingOlder(g: Search, best: map<Topic, Best>)
    requires Sound(g, best, 1)
    ensures Closed(g, best, 1)
  {
  }

  /** Direct siblings: affinity is the edge weight itself. */
  method FirstHop(g: Search, adj: map<Topic, seq<Hop>>) returns (best: map<Topic, Best>, frontier: seq<Item>)
    requires UnitDecay(g) && AdjacencyOf(adj, g.edges)
    ensures SearchedTo(g, best, frontier, 1)
  {
    hide Score, Reaches, Sound, FrontierOf, Complete;
    var neigh := Neigh(adj, g.seed);
    best, frontier := map[], [];
    NothingRecorded(g);
    for i := 0 to |neigh|
      invariant MidHop(g, map[], best, frontier, 1)
      invariant forall e :: e in neigh[..i] && e.to != g.seed && e.w >= g.minAffinity ==> Dominates(best, e.to, e.w, 1)
    {
      var e := neigh[i];
      ghost var was, queue := best, frontier;
      assert neigh[..i + 1] == neigh[..i] + [e];
      if e.to != g.seed && e.w >= g.minAffinity {
        assert e in neigh;
        ReachesAtOnce(g, e);
        FirstScore(g, e.w);
        best, frontier := Relax(best, frontier, e.to, e.w, e.w, 1);
        if best != was { RelaxKeeps(g, map[], was, queue, 1, e.to, e.w, e.w); }
      }
    }
    assert neigh[..|neigh|] == neigh;
    CompleteAtOnce(g, best);
    NothingOlder(g, best);
  }

  lemma CompleteAtOnce(g: Search, best: map<Topic, Best>)
    requires forall e :: Adjacent(g.edges, g.seed, e) && e.to != g.seed && e.w >= g.minAffinity ==> Dominates(best, e.to, e.w, 1)
    ensures Complete(g, best, 1)
  {
    forall p | IsWalk(g, p) && 0 < |p| <= 1 && End(g, p) != g.seed && Affinity(g, p) >= g.minAffinity
      ensures Dominates(best, End(g, p), Affinity(g, p), |p|)
    {
      assert p == [p[0]] && p[..0] == [];
      OneEdge(g, p[0]);
    }
  }

  /** An empty frontier means longer walks bring nothing. */
  lemma {:induction false} NothingFurther(g: Search, best: map<Topic, Best>, h: nat, hops: nat)
    requires UnitDecay(g) && 0 < h <= hops && SearchedTo(g, best, [], h)
    ensures SearchedTo(g, best, [], hops)
    decreases hops - h
  {
    if h < hops {
      AllExtended(g, best, [], best, h);
      CompleteNext(g, best, best, h);
      ClosedNext(g, best, best, h);
      NothingFurther(g, best, h + 1, hops);
    }
  }

  // ---- The answer ----

  predicate NotWeaker(a: GraphNeighbor, b: GraphNeighbor) {
    !StrongerFirst(b, a)
  }

  lemma StrongerFirstIsOrder()
    ensures Asymmetric(StrongerFirst) && TotalPreorder(NotWeaker)
  {
    forall a, b ensures StrongerFirst(a, b) ==> !StrongerFirst(b, a) {
      LexAsymmetric(a.topic, b.topic);
    }
    forall a, b, c | NotWeaker(a, b) && NotWeaker(b, c) ensures NotWeaker(a, c) {
      LexAsymmetric(b.topic, a.topic);
      LexAsymmetric(c.topic, b.topic);
      LexTransitive(c.topic, a.topic, b.topic);
      LexTransitive(b.topic, c.topic, a.topic);
    }
  }

  lemma RecordIsStrongest(g: Search, best: map<Topic, Best>, hops: nat, v: Topic)
    requires Sound(g, best, hops) && Complete(g, best, hops) && v in best
    ensures Strongest(g, hops, GraphNeighbor(v, best[v].affinity, best[v].hops))
  {
    hide Score, Adjacent;
    var b :| Reaches(g, v, b, best[v].hops) && best[v].affinity == Score(g, b, best[v].hops);
    var p :| IsWalk(g, p) && |p| == best[v].hops && |p| > 0 && End(g, p) == v && Bottleneck(p) == b;
    assert Affinity(g, p) == best[v].affinity;
    hide Affinity, Bottleneck;
    forall q | IsWalk(g, q) && 0 < |q| <= hops && End(g, q) == v
      ensures Affinity(g, q) < best[v].affinity || (Affinity(g, q) == best[v].affinity && best[v].hops <= |q|)
    {
      if Affinity(g, q) >= g.minAffinity {
        assert Dominates(best, v, Affinity(g, q), |q|);
      }
    }
  }

  lemma StrongestUnique(g: Search, hops: nat, x: GraphNeighbor, y: GraphNeighbor)
    requires Strongest(g, hops, x) && Strongest(g, hops, y) && x.topic == y.topic
    ensures x == y
  {
    hide Affinity, IsWalk;
    var p :| IsWalk(g, p) && 0 < |p| == x.hops <= hops && End(g, p) == x.topic && Affinity(g, p) == x.affinity;
    var q :| IsWalk(g, q) && 0 < |q| == y.hops <= hops && End(g, q) == x.topic && Affinity(g, q) == y.affinity;
  }

  lemma RecordsAreStrongest(g: Search, best: map<Topic, Best>, hops: nat, x: GraphNeighbor)
    requires Sound(g, best, hops) && Complete(g, best, hops)
    ensures Strongest(g, hops, x) <==> x.topic in best && best[x.topic] == Best(x.affinity, x.hops)
  {
    hide Affinity, IsWalk, Sound;
    if Strongest(g, hops, x) {
      var q :| IsWalk(g, q) && 0 < |q| == x.hops <= hops && End(g, q) == x.topic && Affinity(g, q) == x.affinity;
      assert Dominates(best, x.topic, Affinity(g, q), |q|);
    }
    if x.topic in best {
      var y := GraphNeighbor(x.topic, best[x.topic].affinity, best[x.topic].hops);
      RecordIsStrongest(g, best, hops, x.topic);
      if Strongest(g, hops, x) { StrongestUnique(g, hops, x, y); }
    }
  }

  method ListBest(g: Search, best: map<Topic, Best>, hops: nat) returns (full: seq<GraphNeighbor>)
    requires Sound(g, best, hops) && Complete(g, best, hops)
    ensures IsNeighborhood(g, hops, full)
  {
    hide Sound, Complete, IsNeighborhood, Sort;
    var out := Entries(best);
    ListedInOrder(g, best, hops, out);
    full := Sort(out, NotWeaker);
  }

  method Entries(best: map<Topic, Best>) returns (out: seq<GraphNeighbor>)
    ensures forall x :: x in out <==> x.topic in best && best[x.topic] == Best(x.affinity, x.hops)
    ensures Distinct(out)
  {
    out := [];
    var left := best.Keys;
    while left != {}
      invariant left <= best.Keys
      invariant forall x :: x in out <==> x.topic in best.Keys - left && best[x.topic] == Best(x.affinity, x.hops)
      invariant Distinct(out)
      decreases left
    {
      var v :| v in left;
      var x := GraphNeighbor(v, best[v].affinity, best[v].hops);
      assert x !in out;
      left := left - {v};
      out := out + [x];
    }
  }

  lemma ListedInOrder(g: Search, best: map<Topic, Best>, hops: nat, out: seq<GraphNeighbor>)
    requires Sound(g, best, hops) && Complete(g, best, hops) && Distinct(out)
    requires forall x :: x in out <==> x.topic in best && best[x.topic] == Best(x.affinity, x.hops)
    ensures IsNeighborhood(g, hops, Sort(out, NotWeaker))
  {
    hide Sound, Complete, Strongest, Sort;
    StrongerFirstIsOrder();
    forall a, b | a in out && b in out && a != b && NotWeaker(a, b) ensures StrongerFirst(a, b) {
      LexAsymmetric(a.topic, b.topic);
    }
    SortDistinct(out, NotWeaker, StrongerFirst);
    forall x ensures x in out <==> Strongest(g, hops, x) {
      RecordsAreStrongest(g, best, hops, x);
    }
  }

  lemma SearchDone(g: Search, best: map<Topic, Best>, frontier: seq<Item>, hops: nat)
    requires SearchedTo(g, best, frontier, hops)
    ensures Sound(g, best, hops) && Complete(g, best, hops)
  {
  }

  /** `per_hop_decay` defended to [0, 1]; a value that is not finite counts as 1. */
  function ClampDecay(perHopDecay: Option<real>): (d: real)
    ensures 0.0 <= d <= 1.0
  {
    match perHopDecay
    case None => 1.0
    case Some(d) => if d < 0.0 then 0.0 else if d > 1.0 then 1.0 else d
  }

  /**
    The walk is exact: it returns the first `cap` of the strongest arrivals at
    every topic in reach. A decay in [0, 1] is taken as asked, a lower one is 0
    and a higher one, or one that is no number, is 1.
  */
  method NeighborsWithin(ranked: seq<Edge>, seed: Topic, hops: nat, perHopDecay: Option<real>, minAffinity: real, cap: nat)
    returns (out: seq<GraphNeighbor>)
    ensures hops == 0 || cap == 0 ==> out == []
    ensures hops > 0 && cap > 0 ==>
              var decay := match perHopDecay
                case None => 1.0
                case Some(d) => if 0.0 <= d <= 1.0 then d else if d < 0.0 then 0.0 else 1.0;
              exists full :: IsNeighborhood(Search(ranked, seed, decay, minAffinity), hops, full)
                             && out == Cut(full, cap)
  {
    if hops == 0 || cap == 0 {
      return [];
    }
    hide Sound, Complete, IsNeighborhood;
    var g := Search(ranked, seed, ClampDecay(perHopDecay), minAffinity);
    var best := SearchOut(g, hops);
    var full := ListBest(g, best, hops);
    out := Cut(full, cap);
  }

  method SearchOut(g: Search, hops: nat) returns (best: map<Topic, Best>)
    requires UnitDecay(g) && hops > 0
    ensures Sound(g, best, hops) && Complete(g, best, hops)
  {
    hide SearchedTo, Sound, Complete, AdjacencyOf;
    var adj := BuildAdjacency(g.edges);
    var frontier;
    best, frontier := FirstHop(g, adj);
    var hop := 2;
    while hop <= hops && frontier != []
      invariant 2 <= hop <= hops + 1
      invariant SearchedTo(g, best, frontier, hop - 1)
    {
      best, frontier := NextHop(g, adj, best, frontier, hop - 1);
      hop := hop + 1;
    }
    if frontier == [] {
      NothingFurther(g, best, hop - 1, hops);
    }
    SearchDone(g, best, frontier, hops);
  }
}
