/**
  The direct-sibling lookup, and the claim that the multi-hop walk generalizes
  it: with one hop the two give the same list.
*/
module Siblings {
  import opened Wrappers
  import opened Bytes
  import opened Sorting
  import opened DecayingLedger
  import opened CooccurrenceLedger
  import opened GraphWalk

  predicate EdgeBefore(a: Edge, b: Edge) {
    a.w > b.w || (a.w == b.w && (LexLt(a.lo, b.lo) || (a.lo == b.lo && LexLt(a.hi, b.hi))))
  }

  /** What a ranking of the ledger is: in rank order, each pair once and with its smaller topic first. */
  ghost predicate Canonical(ranked: seq<Edge>) {
    && SortedBy(ranked, EdgeBefore)
    && (forall e :: e in ranked ==> LexLe(e.lo, e.hi))
    && (forall d, e :: d in ranked && e in ranked && d.lo == e.lo && d.hi == e.hi ==> d == e)
  }

  /** The other side of a pair that holds `topic`, if it is strong enough. */
  function SiblingIn(e: Edge, topic: Topic, minAffinity: real): Option<GraphNeighbor> {
    if e.w < minAffinity then None
    else if e.lo == topic then Some(GraphNeighbor(e.hi, e.w, 1))
    else if e.hi == topic then Some(GraphNeighbor(e.lo, e.w, 1))
    else None
  }

  function AllSiblings(ranked: seq<Edge>, topic: Topic, minAffinity: real): seq<GraphNeighbor> {
    if ranked == [] then []
    else
      var rest := AllSiblings(ranked[1..], topic, minAffinity);
      match SiblingIn(ranked[0], topic, minAffinity)
      case None => rest
      case Some(x) => [x] + rest
  }

  function SiblingsOf(ranked: seq<Edge>, topic: Topic, topN: nat, minAffinity: real): seq<GraphNeighbor> {
    Cut(AllSiblings(ranked, topic, minAffinity), topN)
  }

  lemma {:induction false} SiblingMembers(ranked: seq<Edge>, topic: Topic, minAffinity: real, x: GraphNeighbor)
    ensures x in AllSiblings(ranked, topic, minAffinity) <==>
            exists e :: e in ranked && SiblingIn(e, topic, minAffinity) == Some(x)
  {
    if ranked != [] {
      SiblingMembers(ranked[1..], topic, minAffinity, x);
      assert ranked == [ranked[0]] + ranked[1..];
    }
  }

  /** What the walk lists of the siblings: positive ones other than the topic itself. */
  predicate Walked(topic: Topic, x: GraphNeighbor) {
    x.topic != topic && x.affinity > 0.0
  }

  function WalkedOf(topic: Topic, xs: seq<GraphNeighbor>): (r: seq<GraphNeighbor>)
    ensures |r| <= |xs|
    ensures forall x :: x in r <==> x in xs && Walked(topic, x)
  {
    if xs == [] then []
    else
      assert xs == [xs[0]] + xs[1..];
      (if Walked(topic, xs[0]) then [xs[0]] else []) + WalkedOf(topic, xs[1..])
  }

  lemma SiblingOrder(d: Edge, e: Edge, topic: Topic, minAffinity: real)
    requires EdgeBefore(d, e) && LexLe(d.lo, d.hi) && LexLe(e.lo, e.hi)
    requires SiblingIn(d, topic, minAffinity).Some? && SiblingIn(e, topic, minAffinity).Some?
    requires SiblingIn(e, topic, minAffinity).value.topic != topic
    ensures StrongerFirst(SiblingIn(d, topic, minAffinity).value, SiblingIn(e, topic, minAffinity).value)
  {
    LexAsymmetric(d.lo, d.hi);
    LexAsymmetric(e.lo, e.hi);
    LexAsymmetric(topic, topic);
    LexAsymmetric(d.lo, e.lo);
    LexTransitive(d.lo, topic, e.hi);
  }

  lemma FirstIsStrongest(ranked: seq<Edge>, topic: Topic, minAffinity: real, x: GraphNeighbor)
    requires ranked != [] && Canonical(ranked) && x.topic != topic
    requires SiblingIn(ranked[0], topic, minAffinity).Some? && x in AllSiblings(ranked[1..], topic, minAffinity)
    ensures StrongerFirst(SiblingIn(ranked[0], topic, minAffinity).value, x)
  {
    hide EdgeBefore, StrongerFirst, SiblingIn;
    SiblingMembers(ranked[1..], topic, minAffinity, x);
    var e :| e in ranked[1..] && SiblingIn(e, topic, minAffinity) == Some(x);
    var i :| 1 <= i < |ranked| && ranked[i] == e;
    assert EdgeBefore(ranked[0], ranked[i]);
    SiblingOrder(ranked[0], e, topic, minAffinity);
  }

  lemma {:induction false} WalkedSorted(ranked: seq<Edge>, topic: Topic, minAffinity: real)
    requires Canonical(ranked)
    ensures SortedBy(WalkedOf(topic, AllSiblings(ranked, topic, minAffinity)), StrongerFirst)
  {
    if ranked != [] {
      assert ranked == [ranked[0]] + ranked[1..];
      WalkedSorted(ranked[1..], topic, minAffinity);
      var first := SiblingIn(ranked[0], topic, minAffinity);
      var rest := AllSiblings(ranked[1..], topic, minAffinity);
      if first.Some? {
        assert ([first.value] + rest)[1..] == rest;
        forall x | x in WalkedOf(topic, rest) ensures StrongerFirst(first.value, x) {
          FirstIsStrongest(ranked, topic, minAffinity, x);
        }
        hide EdgeBefore, StrongerFirst, SiblingIn;
        ConsSorted(first.value, WalkedOf(topic, rest), StrongerFirst);
      }
    }
  }

  lemma OneHopArrival(g: Search, x: GraphNeighbor)
    requires Canonical(g.edges)
    ensures Strongest(g, 1, x) <==>
            x.hops == 1 && x.topic != g.seed && x.affinity >= g.minAffinity && Adjacent(g.edges, g.seed, Hop(x.topic, x.affinity))
  {
    hide Score;
    if Strongest(g, 1, x) {
      var p :| IsWalk(g, p) && 0 < |p| == x.hops <= 1 && End(g, p) == x.topic && Affinity(g, p) == x.affinity;
      assert p == [p[0]] && p[..0] == [];
      OneEdge(g, p[0]);
    }
    var h := Hop(x.topic, x.affinity);
    if x.hops == 1 && x.topic != g.seed && x.affinity >= g.minAffinity && Adjacent(g.edges, g.seed, h) {
      OneEdge(g, h);
      forall p | IsWalk(g, p) && 0 < |p| <= 1 && End(g, p) == x.topic ensures Affinity(g, p) == x.affinity {
        assert p == [p[0]] && p[..0] == [];
        OneEdge(g, p[0]);
        LexAsymmetric(g.seed, x.topic);
      }
    }
  }

  /** At one hop, whatever the floor, the walk's list is the sibling list without the topic itself and what is not positive. */
  lemma OneHopIsWalkedSiblings(g: Search, full: seq<GraphNeighbor>)
    requires Canonical(g.edges) && IsNeighborhood(g, 1, full)
    ensures full == WalkedOf(g.seed, AllSiblings(g.edges, g.seed, g.minAffinity))
  {
    hide Strongest;
    var all := AllSiblings(g.edges, g.seed, g.minAffinity);
    WalkedSorted(g.edges, g.seed, g.minAffinity);
    StrongerFirstIsOrder();
    forall x ensures x in full <==> x in WalkedOf(g.seed, all) {
      OneHopArrival(g, x);
      SiblingMembers(g.edges, g.seed, g.minAffinity, x);
      SiblingIsAdjacent(g, x);
    }
    SortedUnique(full, WalkedOf(g.seed, all), StrongerFirst);
  }

  lemma SiblingIsAdjacent(g: Search, x: GraphNeighbor)
    ensures (exists e :: e in g.edges && SiblingIn(e, g.seed, g.minAffinity) == Some(x)) && Walked(g.seed, x) <==>
            x.hops == 1 && x.topic != g.seed && x.affinity >= g.minAffinity && Adjacent(g.edges, g.seed, Hop(x.topic, x.affinity))
  {
    if x.hops == 1 && x.topic != g.seed && x.affinity >= g.minAffinity {
      var e, e' := Edge(g.seed, x.topic, x.affinity), Edge(x.topic, g.seed, x.affinity);
      assert SiblingIn(e, g.seed, g.minAffinity) == Some(x) == SiblingIn(e', g.seed, g.minAffinity);
    }
  }

  /** Leaving some out before the cut and after it is the same exactly when none before the cut are left out. */
  lemma {:induction false} CutOfWalked(topic: Topic, xs: seq<GraphNeighbor>, n: nat)
    ensures Cut(WalkedOf(topic, xs), n) == Cut(xs, n) <==> forall x :: x in Cut(xs, n) ==> Walked(topic, x)
  {
    if xs != [] && n > 0 {
      assert xs == [xs[0]] + xs[1..];
      if Walked(topic, xs[0]) {
        CutOfWalked(topic, xs[1..], n - 1);
        CutCons(xs[0], xs[1..], n);
        CutCons(xs[0], WalkedOf(topic, xs[1..]), n);
        hide Walked, Cut;
        ConsEqual(xs[0], Cut(WalkedOf(topic, xs[1..]), n - 1), Cut(xs[1..], n - 1));
      } else {
        assert Cut(xs, n)[0] == xs[0] && xs[0] in Cut(xs, n);
        assert xs[0] !in WalkedOf(topic, xs);
        CutMembers(WalkedOf(topic, xs), n, xs[0]);
      }
    }
  }

  lemma CutMembers<T>(s: seq<T>, n: nat, x: T)
    ensures x in Cut(s, n) ==> x in s
  {
  }

  lemma CutCons<T>(x: T, s: seq<T>, n: nat)
    requires n > 0
    ensures Cut([x] + s, n) == [x] + Cut(s, n - 1)
  {
  }

  lemma ConsEqual<T>(x: T, a: seq<T>, b: seq<T>)
    ensures [x] + a == [x] + b <==> a == b
  {
    if [x] + a == [x] + b { assert a == ([x] + a)[1..] == ([x] + b)[1..] == b; }
  }

  /** So the capped lists agree exactly when every sibling listed is positive and not the topic itself. */
  lemma OneHopIsSiblingsIff(g: Search, full: seq<GraphNeighbor>, cap: nat)
    requires Canonical(g.edges) && IsNeighborhood(g, 1, full)
    ensures var direct := SiblingsOf(g.edges, g.seed, cap, g.minAffinity);
      Cut(full, cap) == direct <==> forall x :: x in direct ==> Walked(g.seed, x)
  {
    OneHopIsWalkedSiblings(g, full);
    CutOfWalked(g.seed, AllSiblings(g.edges, g.seed, g.minAffinity), cap);
  }

  // ---- The ledger's ranking is canonical ----

  function EdgeOf(utf8: seq<Byte> -> bool, x: RankedRow): Edge
    requires ShowsPair(utf8, x.key)
  {
    Edge(SplitKey(utf8, x.key).value.0, SplitKey(utf8, x.key).value.1, x.row.score)
  }

  /** `edges` is the ranking, read as edges. */
  ghost predicate AsEdges(utf8: seq<Byte> -> bool, ranking: seq<RankedRow>, edges: seq<Edge>) {
    && |edges| == |ranking|
    && forall i :: 0 <= i < |ranking| ==> ShowsPair(utf8, ranking[i].key) && edges[i] == EdgeOf(utf8, ranking[i])
  }

  /** Every stored key was made by `PairKey`. */
  ghost predicate PairKeyed(rows: Ledger) {
    forall k :: k in rows ==> exists a, b :: k == PairKey(a, b) && Fits(a, b)
  }

  /** Windows and prunes only ever store pair keys. */
  lemma {:induction false} HistoryIsPairKeyed(r: Rates, history: seq<Action>)
    requires AllFit(history)
    ensures PairKeyed(After(r, OpsOf(history)))
  {
    if history != [] {
      var n := |history| - 1;
      HistoryIsPairKeyed(r, history[..n]);
      match history[n]
      case Window(nets, at) =>
        AfterThen(r, OpsOf(history[..n]), WindowOps(nets, at));
        FoldsKeepPairKeyed(r, After(r, OpsOf(history[..n])), nets, at);
      case Prunes(at) =>
        var ops := OpsOf(history);
        assert ops[..|ops| - 1] == OpsOf(history[..n]);
    }
  }

  lemma {:induction false} FoldsKeepPairKeyed(r: Rates, rows: Ledger, nets: seq<PairNet>, at: nat)
    requires PairKeyed(rows) && (forall n :: n in nets ==> Fits(n.a, n.b))
    ensures PairKeyed(ApplyAll(r, rows, WindowOps(nets, at)))
  {
    if nets != [] {
      FoldsKeepPairKeyed(r, rows, nets[..|nets| - 1], at);
      var ops := WindowOps(nets, at);
      assert ops[..|ops| - 1] == WindowOps(nets[..|nets| - 1], at);
    }
  }

  lemma PairKeySplitsInOrder(utf8: seq<Byte> -> bool, a: Topic, b: Topic)
    requires Fits(a, b) && ShowsPair(utf8, PairKey(a, b))
    ensures SplitKey(utf8, PairKey(a, b)) == Some((Lo(a, b), Hi(a, b))) && LexLe(Lo(a, b), Hi(a, b))
  {
    var lo, k := Lo(a, b), PairKey(a, b);
    Widths();
    CutToWidth(|lo|, 4);
    assert k[..4] == ToBE(|lo|, 4);
    assert k[4..4 + |lo|] == lo && k[4 + |lo|..] == Hi(a, b);
    LexAsymmetric(a, b);
  }

  lemma RanksAsEdges(utf8: seq<Byte> -> bool, x: RankedRow, y: RankedRow)
    requires ShowsPair(utf8, x.key) && ShowsPair(utf8, y.key)
    ensures RanksBefore((k, k') => PairLt(utf8, k, k'), x, y) <==> EdgeBefore(EdgeOf(utf8, x), EdgeOf(utf8, y))
  {
  }

  /** What the ledger's ranking lists, read as edges, is canonical. */
  lemma RankingIsCanonical(utf8: seq<Byte> -> bool, r: Rates, rows: Ledger, now: nat, ranking: seq<RankedRow>, edges: seq<Edge>)
    requires PairKeyed(rows)
    requires IsPairRanking(utf8, r, rows, now, ranking) && AsEdges(utf8, ranking, edges)
    ensures Canonical(edges)
  {
    hide SplitKey, PairKey;
    forall i, j | 0 <= i < j < |edges| ensures EdgeBefore(edges[i], edges[j]) {
      RanksAsEdges(utf8, ranking[i], ranking[j]);
    }
    forall i | 0 <= i < |edges| ensures LexLe(edges[i].lo, edges[i].hi) {
      assert ranking[i] in ranking;
      var a, b :| ranking[i].key == PairKey(a, b) && Fits(a, b);
      PairKeySplitsInOrder(utf8, a, b);
    }
    forall i, j | 0 <= i < |edges| && 0 <= j < |edges| && edges[i].lo == edges[j].lo && edges[i].hi == edges[j].hi
      ensures edges[i] == edges[j]
    {
      SplitInjective(utf8, ranking[i].key, ranking[j].key);
      assert ranking[i] in ranking && ranking[j] in ranking;
    }
  }

  // ---- Both reads, from any history ----

  /** Some window of the history holds a net of the topic with itself. */
  ghost predicate NamesSelfPair(history: seq<Action>, topic: Topic) {
    exists i, n :: 0 <= i < |history| && history[i].Window? && n in history[i].nets && n.a == n.b == topic
  }

  lemma {:induction false} FoldsKeepOutSelfPair(r: Rates, rows: Ledger, nets: seq<PairNet>, at: nat, topic: Topic)
    requires Fits(topic, topic) && (forall n :: n in nets ==> Fits(n.a, n.b) && !(n.a == n.b == topic))
    requires PairKey(topic, topic) !in rows
    ensures PairKey(topic, topic) !in ApplyAll(r, rows, WindowOps(nets, at))
  {
    if nets != [] {
      var init, n := nets[..|nets| - 1], nets[|nets| - 1];
      FoldsKeepOutSelfPair(r, rows, init, at, topic);
      assert n in nets;
      PairKeyInjective(n.a, n.b, topic, topic);
      var ops := WindowOps(nets, at);
      assert ops[..|ops| - 1] == WindowOps(init, at);
      hide PairKey;
    }
  }

  lemma {:induction false} NoSelfPairStored(r: Rates, history: seq<Action>, topic: Topic)
    requires AllFit(history) && Fits(topic, topic) && !NamesSelfPair(history, topic)
    ensures PairKey(topic, topic) !in After(r, OpsOf(history))
  {
    if history != [] {
      var n := |history| - 1;
      assert forall i :: 0 <= i < n ==> history[..n][i] == history[i];
      NoSelfPairStored(r, history[..n], topic);
      hide PairKey;
      match history[n]
      case Window(nets, at) =>
        AfterThen(r, OpsOf(history[..n]), WindowOps(nets, at));
        FoldsKeepOutSelfPair(r, After(r, OpsOf(history[..n])), nets, at, topic);
      case Prunes(at) =>
        var ops := OpsOf(history);
        assert ops[..|ops| - 1] == OpsOf(history[..n]);
    }
  }

  /** The pairs a read of the ledger starts from. */
  ghost predicate RankedEdges(utf8: seq<Byte> -> bool, r: Rates, rows: Ledger, now: nat, edges: seq<Edge>) {
    exists ranking :: IsPairRanking(utf8, r, rows, now, ranking) && AsEdges(utf8, ranking, edges)
  }

  lemma RankedEdgesUnique(utf8: seq<Byte> -> bool, r: Rates, rows: Ledger, now: nat, a: seq<Edge>, b: seq<Edge>)
    requires RankedEdges(utf8, r, rows, now, a) && RankedEdges(utf8, r, rows, now, b)
    ensures a == b
  {
    hide IsPairRanking;
    var x: seq<RankedRow> :| IsPairRanking(utf8, r, rows, now, x) && AsEdges(utf8, x, a);
    var y: seq<RankedRow> :| IsPairRanking(utf8, r, rows, now, y) && AsEdges(utf8, y, b);
    PairRankingUnique(utf8, r, rows, now, x, y);
  }

  lemma NoSelfRow(utf8: seq<Byte> -> bool, rows: Ledger, k: seq<Byte>, seed: Topic)
    requires PairKeyed(rows) && k in rows && ShowsPair(utf8, k)
    requires Fits(seed, seed) ==> PairKey(seed, seed) !in rows
    ensures SplitKey(utf8, k).value != (seed, seed)
  {
    hide SplitKey, PairKey, Fits;
    var a, b :| k == PairKey(a, b) && Fits(a, b);
    PairKeySplitsInOrder(utf8, a, b);
    assert Lo(a, b) == seed && Hi(a, b) == seed ==> a == seed && b == seed;
  }

  lemma NoSelfEdge(utf8: seq<Byte> -> bool, r: Rates, rows: Ledger, now: nat, edges: seq<Edge>, seed: Topic)
    requires PairKeyed(rows) && RankedEdges(utf8, r, rows, now, edges)
    requires Fits(seed, seed) ==> PairKey(seed, seed) !in rows
    ensures forall e :: e in edges ==> e != Edge(seed, seed, e.w)
  {
    var ranking: seq<RankedRow> :| IsPairRanking(utf8, r, rows, now, ranking) && AsEdges(utf8, ranking, edges);
    forall i | 0 <= i < |edges| ensures edges[i] != Edge(seed, seed, edges[i].w) {
      assert ranking[i] in ranking;
      NoSelfRow(utf8, rows, ranking[i].key, seed);
      hide SplitKey, PairKey, PairLt;
    }
  }

  function EdgesOf(utf8: seq<Byte> -> bool, ranking: seq<RankedRow>): (edges: seq<Edge>)
    requires forall x :: x in ranking ==> ShowsPair(utf8, x.key)
    ensures AsEdges(utf8, ranking, edges)
  {
    if ranking == [] then []
    else EdgesOf(utf8, ranking[..|ranking| - 1]) + [EdgeOf(utf8, ranking[|ranking| - 1])]
  }

  /** A sibling with its score and how often the pair was folded. */
  datatype PairScore = PairScore(a: Topic, b: Topic, score: real, samples: nat)

  function ScoreIn(utf8: seq<Byte> -> bool, x: RankedRow, topic: Topic, minAffinity: real): Option<PairScore>
    requires ShowsPair(utf8, x.key)
  {
    var (lo, hi) := SplitKey(utf8, x.key).value;
    if x.row.score < minAffinity then None
    else if lo == topic then Some(PairScore(topic, hi, x.row.score, x.row.samples))
    else if hi == topic then Some(PairScore(topic, lo, x.row.score, x.row.samples))
    else None
  }

  function AllScores(utf8: seq<Byte> -> bool, ranking: seq<RankedRow>, topic: Topic, minAffinity: real): seq<PairScore>
    requires forall x :: x in ranking ==> ShowsPair(utf8, x.key)
  {
    if ranking == [] then []
    else
      var rest := AllScores(utf8, ranking[1..], topic, minAffinity);
      match ScoreIn(utf8, ranking[0], topic, minAffinity)
      case None => rest
      case Some(x) => [x] + rest
  }

  /** The lookup treats each ranked row by itself, in rank order. */
  lemma {:induction false} ScoresSplit(utf8: seq<Byte> -> bool, a: seq<RankedRow>, b: seq<RankedRow>, topic: Topic, minAffinity: real)
    requires forall x :: x in a + b ==> ShowsPair(utf8, x.key)
    ensures (forall x :: x in a ==> ShowsPair(utf8, x.key)) && (forall x :: x in b ==> ShowsPair(utf8, x.key))
    ensures AllScores(utf8, a + b, topic, minAffinity) == AllScores(utf8, a, topic, minAffinity) + AllScores(utf8, b, topic, minAffinity)
  {
    hide SplitKey;
    forall x | x in a || x in b ensures x in a + b {}
    if a == [] {
      assert a + b == b;
    } else {
      assert (a + b)[1..] == a[1..] + b;
      ScoresSplit(utf8, a[1..], b, topic, minAffinity);
    }
  }

  /**
    A row is listed exactly when its pair holds the topic and its decayed score
    reaches the floor: as the topic, the other side, that score and the row's
    own count of samples.
  */
  lemma ScoresOfOne(utf8: seq<Byte> -> bool, x: RankedRow, topic: Topic, minAffinity: real, lo: Topic, hi: Topic)
    requires SplitKey(utf8, x.key) == Some((lo, hi))
    ensures AllScores(utf8, [x], topic, minAffinity)
         == if x.row.score >= minAffinity && lo == topic then [PairScore(topic, hi, x.row.score, x.row.samples)]
            else if x.row.score >= minAffinity && hi == topic then [PairScore(topic, lo, x.row.score, x.row.samples)]
            else []
  {
    hide SplitKey;
    assert [x][1..] == [];
  }

  function AsNeighbors(scores: seq<PairScore>): (r: seq<GraphNeighbor>)
    ensures |r| == |scores|
    ensures forall i :: 0 <= i < |scores| ==> r[i] == GraphNeighbor(scores[i].b, scores[i].score, 1)
  {
    if scores == [] then []
    else [GraphNeighbor(scores[0].b, scores[0].score, 1)] + AsNeighbors(scores[1..])
  }

  lemma {:induction false} ScoresAreSiblings(utf8: seq<Byte> -> bool, ranking: seq<RankedRow>, edges: seq<Edge>, topic: Topic, minAffinity: real)
    requires AsEdges(utf8, ranking, edges)
    requires forall x :: x in ranking ==> ShowsPair(utf8, x.key)
    ensures AsNeighbors(AllScores(utf8, ranking, topic, minAffinity)) == AllSiblings(edges, topic, minAffinity)
  {
    hide SplitKey;
    if ranking != [] {
      ScoresAreSiblings(utf8, ranking[1..], edges[1..], topic, minAffinity);
      var rest := AllScores(utf8, ranking[1..], topic, minAffinity);
      var first := ScoreIn(utf8, ranking[0], topic, minAffinity);
      assert edges[0] == EdgeOf(utf8, ranking[0]);
      if first.Some? { assert ([first.value] + rest)[1..] == rest; }
    }
  }

  /** What the sibling lookup returns, given the ledger's rows. */
  ghost predicate SiblingsRead(utf8: seq<Byte> -> bool, r: Rates, rows: Ledger, topic: Topic, now: nat, topN: nat, minAffinity: real, out: seq<PairScore>) {
    exists ranking: seq<RankedRow> ::
      && IsPairRanking(utf8, r, rows, now, ranking)
      && (forall x :: x in ranking ==> ShowsPair(utf8, x.key))
      && out == Cut(AllScores(utf8, ranking, topic, minAffinity), topN)
  }

  method ReadSiblings(ledger: PersistentLedger, utf8: seq<Byte> -> bool, topic: Topic, now: nat, topN: nat, minAffinity: real)
    returns (out: seq<PairScore>)
    ensures SiblingsRead(utf8, ledger.rates, ledger.rows, topic, now, topN, minAffinity, out)
  {
    hide SplitKey, PairLt;
    var ranking := CooccurrenceLedger.Ranked(ledger, utf8, now);
    out := Cut(AllScores(utf8, ranking, topic, minAffinity), topN);
  }

  /** The lookup's list, its samples left out. */
  lemma SiblingsReadAsNeighbors(
    utf8: seq<Byte> -> bool, r: Rates, rows: Ledger, topic: Topic, now: nat, topN: nat, minAffinity: real, out: seq<PairScore>)
    returns (edges: seq<Edge>)
    requires SiblingsRead(utf8, r, rows, topic, now, topN, minAffinity, out)
    ensures RankedEdges(utf8, r, rows, now, edges) && AsNeighbors(out) == SiblingsOf(edges, topic, topN, minAffinity)
  {
    hide IsPairRanking, SplitKey;
    var ranking: seq<RankedRow> :| IsPairRanking(utf8, r, rows, now, ranking)
      && (forall x :: x in ranking ==> ShowsPair(utf8, x.key))
      && out == Cut(AllScores(utf8, ranking, topic, minAffinity), topN);
    edges := EdgesOf(utf8, ranking);
    ScoresAreSiblings(utf8, ranking, edges, topic, minAffinity);
    CutOfNeighbors(AllScores(utf8, ranking, topic, minAffinity), topN);
  }

  lemma CutOfNeighbors(scores: seq<PairScore>, n: nat)
    ensures AsNeighbors(Cut(scores, n)) == Cut(AsNeighbors(scores), n)
  {
  }

  /** What the walk returns, given the ledger's rows. */
  ghost predicate NeighborsRead(
    utf8: seq<Byte> -> bool, r: Rates, rows: Ledger, seed: Topic, now: nat, hops: nat, perHopDecay: Option<real>, minAffinity: real, cap: nat,
    out: seq<GraphNeighbor>)
  {
    if hops == 0 || cap == 0 then out == []
    else
      var decay := match perHopDecay
        case None => 1.0
        case Some(d) => if 0.0 <= d <= 1.0 then d else if d < 0.0 then 0.0 else 1.0;
      exists edges, full ::
        && RankedEdges(utf8, r, rows, now, edges)
        && IsNeighborhood(Search(edges, seed, decay, minAffinity), hops, full)
        && out == Cut(full, cap)
  }

  method ReadNeighbors(
    ledger: PersistentLedger, utf8: seq<Byte> -> bool, seed: Topic, now: nat, hops: nat, perHopDecay: Option<real>, minAffinity: real, cap: nat)
    returns (out: seq<GraphNeighbor>)
    ensures NeighborsRead(utf8, ledger.rates, ledger.rows, seed, now, hops, perHopDecay, minAffinity, cap, out)
  {
    hide IsNeighborhood, SplitKey, PairLt;
    var ranking := CooccurrenceLedger.Ranked(ledger, utf8, now);
    var edges := EdgesOf(utf8, ranking);
    assert RankedEdges(utf8, ledger.rates, ledger.rows, now, edges);
    hide RankedEdges;
    out := NeighborsWithin(edges, seed, hops, perHopDecay, minAffinity, cap);
  }

  /**
    After every history and for every floor, the walk at one hop and the
    sibling lookup return the same list if and only if all the lookup returns is
    positive and none of it is the topic itself.
  */
  lemma OneHopReadsAgreeIff(
    utf8: seq<Byte> -> bool, r: Rates, history: seq<Action>, seed: Topic, now: nat, perHopDecay: Option<real>, minAffinity: real, cap: nat,
    near: seq<GraphNeighbor>, direct: seq<PairScore>)
    requires AllFit(history)
    requires NeighborsRead(utf8, r, After(r, OpsOf(history)), seed, now, 1, perHopDecay, minAffinity, cap, near)
    requires SiblingsRead(utf8, r, After(r, OpsOf(history)), seed, now, cap, minAffinity, direct)
    ensures near == AsNeighbors(direct) <==> forall x :: x in direct ==> x.b != seed && x.score > 0.0
  {
    hide After, OpsOf, PairKeyed, RankedEdges, IsNeighborhood, Canonical, PairKey, AllFit, SiblingsRead, AllSiblings;
    var rows := After(r, OpsOf(history));
    HistoryIsPairKeyed(r, history);
    var b := SiblingsReadAsNeighbors(utf8, r, rows, seed, now, cap, minAffinity, direct);
    WalkedScores(direct, seed);
    if cap > 0 {
      var decay := match perHopDecay
        case None => 1.0
        case Some(d) => if 0.0 <= d <= 1.0 then d else if d < 0.0 then 0.0 else 1.0;
      var a, full :| RankedEdges(utf8, r, rows, now, a)
        && IsNeighborhood(Search(a, seed, decay, minAffinity), 1, full)
        && near == Cut(full, cap);
      RankedEdgesUnique(utf8, r, rows, now, a, b);
      EdgesAreCanonical(utf8, r, rows, now, a);
      OneHopIsSiblingsIff(Search(a, seed, decay, minAffinity), full, cap);
    }
  }

  lemma WalkedScores(scores: seq<PairScore>, seed: Topic)
    ensures (forall x :: x in AsNeighbors(scores) ==> Walked(seed, x)) <==> forall x :: x in scores ==> x.b != seed && x.score > 0.0
  {
    var neighbors := AsNeighbors(scores);
    forall i | 0 <= i < |scores| ensures neighbors[i] in neighbors && scores[i] in scores {}
    hide AsNeighbors;
    if forall x :: x in neighbors ==> Walked(seed, x) {
      forall i | 0 <= i < |scores| ensures scores[i].b != seed && scores[i].score > 0.0 {
        assert Walked(seed, neighbors[i]);
      }
    }
  }

  /** With a positive floor and a seed never paired with itself, they always agree. */
  lemma OneHopReadsAgree(
    utf8: seq<Byte> -> bool, r: Rates, history: seq<Action>, seed: Topic, now: nat, perHopDecay: Option<real>, minAffinity: real, cap: nat,
    near: seq<GraphNeighbor>, direct: seq<PairScore>)
    requires AllFit(history) && !NamesSelfPair(history, seed) && minAffinity > 0.0
    requires NeighborsRead(utf8, r, After(r, OpsOf(history)), seed, now, 1, perHopDecay, minAffinity, cap, near)
    requires SiblingsRead(utf8, r, After(r, OpsOf(history)), seed, now, cap, minAffinity, direct)
    ensures near == AsNeighbors(direct)
  {
    hide After, OpsOf, PairKeyed, RankedEdges, PairKey, AllFit, NamesSelfPair, NeighborsRead, SiblingsRead;
    var rows := After(r, OpsOf(history));
    HistoryIsPairKeyed(r, history);
    if Fits(seed, seed) { NoSelfPairStored(r, history, seed); }
    var edges := SiblingsReadAsNeighbors(utf8, r, rows, seed, now, cap, minAffinity, direct);
    NoSelfEdge(utf8, r, rows, now, edges, seed);
    SiblingsAreWalked(edges, seed, cap, minAffinity);
    WalkedScores(direct, seed);
    OneHopReadsAgreeIff(utf8, r, history, seed, now, perHopDecay, minAffinity, cap, near, direct);
  }

  lemma SiblingsAreWalked(edges: seq<Edge>, seed: Topic, cap: nat, minAffinity: real)
    requires minAffinity > 0.0 && forall e :: e in edges ==> e != Edge(seed, seed, e.w)
    ensures forall x :: x in SiblingsOf(edges, seed, cap, minAffinity) ==> Walked(seed, x)
  {
    forall x | x in SiblingsOf(edges, seed, cap, minAffinity) ensures Walked(seed, x) {
      CutMembers(AllSiblings(edges, seed, minAffinity), cap, x);
      SiblingMembers(edges, seed, minAffinity, x);
    }
  }

  lemma EdgesAreCanonical(utf8: seq<Byte> -> bool, r: Rates, rows: Ledger, now: nat, edges: seq<Edge>)
    requires PairKeyed(rows) && RankedEdges(utf8, r, rows, now, edges)
    ensures Canonical(edges)
  {
    hide PairKeyed, IsPairRanking, AsEdges, Canonical;
    var ranking: seq<RankedRow> :| IsPairRanking(utf8, r, rows, now, ranking) && AsEdges(utf8, ranking, edges);
    RankingIsCanonical(utf8, r, rows, now, ranking, edges);
  }
}
