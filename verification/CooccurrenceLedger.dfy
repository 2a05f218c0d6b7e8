/**
  The co-occurrence ledger: one decaying row per unordered pair of topics,
  stored under a length-prefixed key.
*/
module CooccurrenceLedger {
  import opened Wrappers
  import opened Bytes
  import opened Sorting
  import opened DecayingLedger

  /** A topic as its UTF-8 bytes. */
  type Topic = seq<Byte>

  const HALF_LIFE_SECS: nat := 60 * 24 * 3600
  const PRUNE_EPSILON: real := 0.05
  const PRUNE_HORIZON_SECS: nat := 90 * 24 * 3600

  function PairRates(half: nat -> real): Rates {
    Rates(half, HALF_LIFE_SECS, PRUNE_EPSILON, PRUNE_HORIZON_SECS)
  }

  // ---- Keys ----

  function Lo(a: Topic, b: Topic): Topic {
    if LexLe(a, b) then a else b
  }

  function Hi(a: Topic, b: Topic): Topic {
    if LexLe(a, b) then b else a
  }

  /** The four-byte length of the smaller topic (cut to 32 bits), then both topics. */
  function PairKey(a: Topic, b: Topic): seq<Byte> {
    ToBE(|Lo(a, b)|, 4) + Lo(a, b) + Hi(a, b)
  }

  function SplitKey(utf8: seq<Byte> -> bool, k: seq<Byte>): Option<(Topic, Topic)> {
    if |k| < 4 then None
    else
      var n := FromBE(k[..4]);
      if 4 + n > |k| then None
      else if utf8(k[4..4 + n]) && utf8(k[4 + n..]) then Some((k[4..4 + n], k[4 + n..]))
      else None
  }

  /** The key's length field can hold the length of the smaller topic. */
  predicate Fits(a: Topic, b: Topic) {
    |Lo(a, b)| < TWO_32
  }

  predicate SamePair(a: Topic, b: Topic, c: Topic, d: Topic) {
    (a == c && b == d) || (a == d && b == c)
  }

  lemma {:induction false} CutToWidth(n: nat, width: nat)
    ensures FromBE(ToBE(n, width)) <= n
    ensures FromBE(ToBE(n, width)) == n <==> n < Pow256(width)
  {
    if width > 0 {
      CutToWidth(n / 256, width - 1);
      var s := ToBE(n, width);
      assert s[..|s| - 1] == ToBE(n / 256, width - 1);
    }
  }

  lemma PairKeyOrderBlind(a: Topic, b: Topic)
    ensures PairKey(a, b) == PairKey(b, a)
  {
    LexAsymmetric(a, b);
  }

  /** Splitting a pair's key gives the ordered pair back exactly when both are text and the length fits its field. */
  lemma SplitUndoesPairKey(utf8: seq<Byte> -> bool, a: Topic, b: Topic)
    ensures SplitKey(utf8, PairKey(a, b)) == Some((Lo(a, b), Hi(a, b))) <==>
            utf8(a) && utf8(b) && Fits(a, b)
  {
    var lo, hi, k := Lo(a, b), Hi(a, b), PairKey(a, b);
    Widths();
    CutToWidth(|lo|, 4);
    assert k[..4] == ToBE(|lo|, 4);
    assert k[4..4 + |lo|] == lo && k[4 + |lo|..] == hi;
  }

  lemma PairKeyInjective(a: Topic, b: Topic, c: Topic, d: Topic)
    requires Fits(a, b) && Fits(c, d)
    ensures PairKey(a, b) == PairKey(c, d) <==> SamePair(a, b, c, d)
  {
    var text := (s: seq<Byte>) => true;
    SplitUndoesPairKey(text, a, b);
    SplitUndoesPairKey(text, c, d);
    PairKeyOrderBlind(a, b);
    LexAsymmetric(a, b);
    LexAsymmetric(c, d);
  }

  /** Beyond the width of its length field a key is shared: the length is cut to zero. */
  lemma WidePairsShareKeys(a: Topic, b: Topic)
    requires |Lo(a, b)| == TWO_32
    ensures PairKey(a, b) == PairKey([], Lo(a, b) + Hi(a, b)) && !SamePair(a, b, [], Lo(a, b) + Hi(a, b))
  {
    var both := Lo(a, b) + Hi(a, b);
    LexAsymmetric([], both);
    assert Lo([], both) == [] && Hi([], both) == both;
    FourZeros();
    assert [] + both == both;
  }

  lemma FourZeros()
    ensures ToBE(TWO_32, 4) == ToBE(0, 4)
  {
    assert TWO_32 / 256 == 0x100_0000 && TWO_32 % 256 == 0;
    assert ToBE(0x100_0000, 3) == ToBE(0x1_0000, 2) + [0];
    assert ToBE(0x1_0000, 2) == ToBE(0x100, 1) + [0];
    assert ToBE(0x100, 1) == ToBE(1, 0) + [0];
    assert ToBE(0, 3) == ToBE(0, 2) + [0] && ToBE(0, 2) == ToBE(0, 1) + [0] && ToBE(0, 1) == ToBE(0, 0) + [0];
  }

  /** A key that splits is determined by its two parts. */
  lemma SplitInjective(utf8: seq<Byte> -> bool, k: seq<Byte>, k': seq<Byte>)
    requires SplitKey(utf8, k).Some? && SplitKey(utf8, k) == SplitKey(utf8, k')
    ensures k == k'
  {
    var n := FromBE(k[..4]);
    ToFromBE(k[..4]);
    ToFromBE(k'[..4]);
    hide ToBE, FromBE;
    var p, q := SplitKey(utf8, k).value, SplitKey(utf8, k').value;
    assert |p.0| == FromBE(k[..4]) && |q.0| == FromBE(k'[..4]);
    hide SplitKey;
    FourParts(k, n);
    FourParts(k', n);
  }

  lemma FourParts(k: seq<Byte>, n: nat)
    requires 4 + n <= |k|
    ensures k == k[..4] + k[4..4 + n] + k[4 + n..]
  {
  }

  // ---- The ledger over windows of pairs ----

  datatype PairNet = PairNet(a: Topic, b: Topic, net: real)

  function FoldOp(n: PairNet, now: nat): Op {
    Fold(PairKey(n.a, n.b), n.net, now)
  }

  function WindowOps(nets: seq<PairNet>, now: nat): (ops: seq<Op>)
    ensures forall i :: 0 <= i < |ops| ==> ops[i].at == now
  {
    if nets == [] then [] else WindowOps(nets[..|nets| - 1], now) + [FoldOp(nets[|nets| - 1], now)]
  }

  /** Fold a window's net for every pair into the store. */
  method RecordWindow(ledger: PersistentLedger, nets: seq<PairNet>, now: nat)
    modifies ledger
    ensures ledger.rows == ApplyAll(ledger.rates, old(ledger.rows), WindowOps(nets, now))
  {
    for i := 0 to |nets|
      invariant ledger.rows == ApplyAll(ledger.rates, old(ledger.rows), WindowOps(nets[..i], now))
    {
      ledger.FoldOne(PairKey(nets[i].a, nets[i].b), nets[i].net, now);
      assert nets[..i + 1][..i] == nets[..i];
      var done := WindowOps(nets[..i + 1], now);
      assert done[..|done| - 1] == WindowOps(nets[..i], now);
    }
    assert nets[..|nets|] == nets;
  }

  method PairScore(ledger: PersistentLedger, a: Topic, b: Topic, now: nat) returns (row: Option<Row>)
    ensures row.Some? <==> PairKey(a, b) in ledger.rows
    ensures row.Some? ==> IsDecayed(ledger.rates, ledger.rows[PairKey(a, b)], now, row.value)
    ensures row.Some? ==> row.value.score == Reading(ledger.rates, ledger.rows, PairKey(a, b), now)
  {
    row := ledger.PointLookup(PairKey(a, b), now);
  }

  datatype Action = Window(nets: seq<PairNet>, at: nat) | Prunes(at: nat)

  function OpsOf(history: seq<Action>): seq<Op> {
    if history == [] then []
    else
      var last := history[|history| - 1];
      OpsOf(history[..|history| - 1]) + match last
        case Window(nets, at) => WindowOps(nets, at)
        case Prunes(at) => [Prune(at)]
  }

  /** What a history leaves is what recording its windows and pruning at its prunes leaves, one after the other. */
  lemma HistoryInSteps(r: Rates, history: seq<Action>, last: Action)
    ensures After(r, OpsOf([])) == map[]
    ensures After(r, OpsOf(history + [last]))
         == if last.Window? then ApplyAll(r, After(r, OpsOf(history)), WindowOps(last.nets, last.at))
            else Apply(r, After(r, OpsOf(history)), Prune(last.at))
  {
    assert (history + [last])[..|history|] == history;
    var ops := OpsOf(history);
    if last.Window? {
      AfterThen(r, ops, WindowOps(last.nets, last.at));
    } else {
      assert (ops + [Prune(last.at)])[..|ops|] == ops;
    }
  }

  /** The nets of this unordered pair in a window, each times the factor for the window's age. */
  function WindowSum(r: Rates, nets: seq<PairNet>, a: Topic, b: Topic, at: nat, now: nat): real {
    if nets == [] then 0.0
    else
      var last := nets[|nets| - 1];
      WindowSum(r, nets[..|nets| - 1], a, b, at, now)
      + if SamePair(last.a, last.b, a, b) then last.net * r.half(if at <= now then now - at else 0) else 0.0
  }

  function PairSum(r: Rates, history: seq<Action>, a: Topic, b: Topic, now: nat): real {
    if history == [] then 0.0
    else
      var last := history[|history| - 1];
      PairSum(r, history[..|history| - 1], a, b, now)
      + if last.Window? then WindowSum(r, last.nets, a, b, last.at, now) else 0.0
  }

  predicate AllFit(history: seq<Action>) {
    forall i :: 0 <= i < |history| && history[i].Window? ==>
      forall n :: n in history[i].nets ==> Fits(n.a, n.b)
  }

  ghost predicate ClockForward(history: seq<Action>, now: nat) {
    && (forall i :: 0 <= i < |history| ==> history[i].at <= now)
    && (forall i, j :: 0 <= i < j < |history| ==> history[i].at <= history[j].at)
  }

  /** One more net in a window, for the key of the pair it is about. */
  lemma WindowSumThen(r: Rates, nets: seq<PairNet>, n: PairNet, a: Topic, b: Topic, at: nat, now: nat)
    requires Fits(a, b) && Fits(n.a, n.b)
    ensures WindowSum(r, nets + [n], a, b, at, now)
         == WindowSum(r, nets, a, b, at, now)
            + if PairKey(n.a, n.b) == PairKey(a, b) then n.net * r.half(if at <= now then now - at else 0) else 0.0
  {
    assert (nets + [n])[..|nets|] == nets;
    PairKeyInjective(n.a, n.b, a, b);
  }

  lemma {:induction false} WindowSumIsKeySum(r: Rates, ops: seq<Op>, nets: seq<PairNet>, a: Topic, b: Topic, at: nat, now: nat)
    requires Fits(a, b) && forall n :: n in nets ==> Fits(n.a, n.b)
    ensures NeverPruned(r, ops + WindowOps(nets, at), PairKey(a, b), now)
         == NeverPruned(r, ops, PairKey(a, b), now) + WindowSum(r, nets, a, b, at, now)
  {
    hide Fits, PairKey, WindowSum, NeverPruned, FoldOp;
    if nets == [] {
      assert ops + WindowOps(nets, at) == ops;
      NoWindow(r, a, b, at, now);
    } else {
      var init, n := nets[..|nets| - 1], nets[|nets| - 1];
      WindowSumIsKeySum(r, ops, init, a, b, at, now);
      assert nets == init + [n];
      WindowSumThen(r, init, n, a, b, at, now);
      assert ops + WindowOps(nets, at) == ops + WindowOps(init, at) + [FoldOp(n, at)];
      NeverPrunedThen(r, ops + WindowOps(init, at), FoldOp(n, at), PairKey(a, b), now);
      FoldOpParts(n, at);
    }
  }

  lemma NoWindow(r: Rates, a: Topic, b: Topic, at: nat, now: nat)
    ensures WindowSum(r, [], a, b, at, now) == 0.0
  {
  }

  lemma FoldOpParts(n: PairNet, at: nat)
    ensures FoldOp(n, at) == Fold(PairKey(n.a, n.b), n.net, at)
  {
  }

  lemma {:induction false} PairSumIsKeySum(r: Rates, history: seq<Action>, a: Topic, b: Topic, now: nat)
    requires AllFit(history) && Fits(a, b)
    ensures NeverPruned(r, OpsOf(history), PairKey(a, b), now) == PairSum(r, history, a, b, now)
  {
    if history != [] {
      var n := |history| - 1;
      PairSumIsKeySum(r, history[..n], a, b, now);
      match history[n]
      case Window(nets, at) => WindowSumIsKeySum(r, OpsOf(history[..n]), nets, a, b, at, now);
      case Prunes(at) => NeverPrunedThen(r, OpsOf(history[..n]), Prune(at), PairKey(a, b), now);
    }
  }

  lemma {:induction false} OpsInOrder(history: seq<Action>, now: nat)
    requires ClockForward(history, now)
    ensures Ordered(OpsOf(history), now)
  {
    if history != [] {
      OpsInOrder(history[..|history| - 1], history[|history| - 1].at);
    }
  }

  /** `read` is the pair's never-pruned sum, or at least within `c` of it. */
  ghost predicate ReadsPairSum(r: Rates, history: seq<Action>, a: Topic, b: Topic, now: nat, read: real, c: real) {
    && (LastDrop(r, OpsOf(history), PairKey(a, b)).None? ==> read == PairSum(r, history, a, b, now))
    && Abs(PairSum(r, history, a, b, now) - read) < c
  }

  lemma PairReading(r: Rates, history: seq<Action>, a: Topic, b: Topic, now: nat, c: real)
    requires Halving(r) && r.epsilon <= c * (1.0 - r.half(r.horizon)) && ClockForward(history, now)
    requires AllFit(history) && Fits(a, b)
    ensures ReadsPairSum(r, history, a, b, now, Reading(r, After(r, OpsOf(history)), PairKey(a, b), now), c)
  {
    hide PairKey, OpsOf, PairSum, NeverPruned, Reading, After, LastDrop, Ordered, Halving;
    OpsInOrder(history, now);
    PairSumIsKeySum(r, history, a, b, now);
    ReadingIsWithin(r, OpsOf(history), PairKey(a, b), now, c);
  }

  /**
    For every history of windows and prunes in clock order, and every
    unordered pair, the score read is the never-pruned sum if no prune dropped
    the pair's row, and otherwise less than twice the prune epsilon away: 0.1.
  */
  lemma {:induction false} PairScoreLaw(half: nat -> real, history: seq<Action>, a: Topic, b: Topic, now: nat)
    requires Halving(PairRates(half)) && ClockForward(history, now)
    requires AllFit(history) && Fits(a, b)
    ensures var r := PairRates(half);
            && ReadsPairSum(r, history, a, b, now, Reading(r, After(r, OpsOf(history)), PairKey(a, b), now), 0.1)
            && ReadsPairSum(r, history, a, b, now, Reading(r, After(r, OpsOf(history)), PairKey(b, a), now), 0.1)
  {
    var r := PairRates(half);
    HalfShrinks(r, r.halfLife, r.horizon);
    PairReading(r, history, a, b, now, 0.1);
    PairKeyOrderBlind(a, b);
  }

  // ---- The ranking ----

  /** Pairs in the order of their two topics. */
  predicate PairLt(utf8: seq<Byte> -> bool, k: seq<Byte>, k': seq<Byte>) {
    match (SplitKey(utf8, k), SplitKey(utf8, k'))
    case (Some((lo, hi)), Some((lo', hi'))) => LexLt(lo, lo') || (lo == lo' && LexLt(hi, hi'))
    case (None, Some(_)) => true
    case (Some(_), None) => false
    case (None, None) => LexLt(k, k')
  }

  lemma PairLtIsTotal(utf8: seq<Byte> -> bool)
    ensures StrictTotal((k, k') => PairLt(utf8, k, k'))
  {
    var lt := (k, k') => PairLt(utf8, k, k');
    forall a, b ensures (lt(a, b) ==> !lt(b, a)) && (a == b || lt(a, b) || lt(b, a)) {
      PairLtAsymmetric(utf8, a, b);
    }
    forall a, b, c | lt(a, b) && lt(b, c) ensures lt(a, c) {
      PairLtTransitive(utf8, a, b, c);
    }
  }

  lemma PairLtAsymmetric(utf8: seq<Byte> -> bool, a: seq<Byte>, b: seq<Byte>)
    ensures PairLt(utf8, a, b) ==> !PairLt(utf8, b, a)
    ensures a == b || PairLt(utf8, a, b) || PairLt(utf8, b, a)
  {
    LexAsymmetric(a, b);
    if SplitKey(utf8, a).Some? && SplitKey(utf8, b).Some? {
      var p, q := SplitKey(utf8, a).value, SplitKey(utf8, b).value;
      LexAsymmetric(p.0, q.0);
      LexAsymmetric(p.1, q.1);
      if p == q { SplitInjective(utf8, a, b); }
    }
  }

  lemma PairLtTransitive(utf8: seq<Byte> -> bool, a: seq<Byte>, b: seq<Byte>, c: seq<Byte>)
    requires PairLt(utf8, a, b) && PairLt(utf8, b, c)
    ensures PairLt(utf8, a, c)
  {
    LexTransitive(a, b, c);
    if SplitKey(utf8, a).Some? && SplitKey(utf8, b).Some? && SplitKey(utf8, c).Some? {
      var p, q, s := SplitKey(utf8, a).value, SplitKey(utf8, b).value, SplitKey(utf8, c).value;
      LexTransitive(p.0, q.0, s.0);
      LexTransitive(p.1, q.1, s.1);
    }
  }

  /** The rows a ranking shows: those whose key splits into a pair of texts. */
  predicate ShowsPair(utf8: seq<Byte> -> bool, k: seq<Byte>) {
    SplitKey(utf8, k).Some?
  }

  ghost predicate IsPairRanking(utf8: seq<Byte> -> bool, r: Rates, rows: Ledger, now: nat, out: seq<RankedRow>) {
    IsRanking(r, rows, now, k => ShowsPair(utf8, k), (k, k') => PairLt(utf8, k, k'), out)
  }

  /** Every pair once, decayed to `now`, strongest first, equal scores by the two topics. */
  method Ranked(ledger: PersistentLedger, utf8: seq<Byte> -> bool, now: nat) returns (out: seq<RankedRow>)
    ensures IsPairRanking(utf8, ledger.rates, ledger.rows, now, out)
  {
    PairLtIsTotal(utf8);
    out := ledger.Ranked(now, k => ShowsPair(utf8, k), (k, k') => PairLt(utf8, k, k'));
  }

  /** A ledger has one ranking. */
  lemma PairRankingUnique(utf8: seq<Byte> -> bool, r: Rates, rows: Ledger, now: nat, a: seq<RankedRow>, b: seq<RankedRow>)
    requires IsPairRanking(utf8, r, rows, now, a) && IsPairRanking(utf8, r, rows, now, b)
    ensures a == b
  {
    PairLtIsTotal(utf8);
    RankOrder((k, k') => PairLt(utf8, k, k'));
    SortedUnique(a, b, (x, y) => RanksBefore((k, k') => PairLt(utf8, k, k'), x, y));
  }
}
