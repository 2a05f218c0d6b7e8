/**
  The correction ledger: one decaying row per topic, with a shorter half-life
  and a prune horizon of two half-lives.
*/
module CorrectionLedger {
  import opened Bytes
  import opened DecayingLedger

  /** A topic as its UTF-8 bytes; it is its own key. */
  type Topic = seq<Byte>

  const HALF_LIFE_SECS: nat := 30 * 24 * 3600
  const PRUNE_EPSILON: real := 0.05
  const PRUNE_HORIZON_SECS: nat := 60 * 24 * 3600

  function TopicRates(half: nat -> real): Rates {
    Rates(half, HALF_LIFE_SECS, PRUNE_EPSILON, PRUNE_HORIZON_SECS)
  }

  datatype TopicCount = TopicCount(topic: Topic, count: real)

  function FoldOps(counts: seq<TopicCount>, now: nat): (ops: seq<Op>)
    ensures |ops| == |counts|
  {
    if counts == [] then []
    else FoldOps(counts[..|counts| - 1], now) + [Fold(counts[|counts| - 1].topic, counts[|counts| - 1].count, now)]
  }

  method RecordWindow(ledger: PersistentLedger, counts: seq<TopicCount>, now: nat)
    modifies ledger
    ensures ledger.rows == ApplyAll(ledger.rates, old(ledger.rows), FoldOps(counts, now))
  {
    for i := 0 to |counts|
      invariant ledger.rows == ApplyAll(ledger.rates, old(ledger.rows), FoldOps(counts[..i], now))
    {
      ledger.FoldOne(counts[i].topic, counts[i].count, now);
      assert counts[..i + 1][..i] == counts[..i];
      var done := FoldOps(counts[..i + 1], now);
      assert done[..|done| - 1] == FoldOps(counts[..i], now);
    }
    assert counts[..|counts|] == counts;
  }

  /** How often a window names the topic. */
  function CountOf(counts: seq<TopicCount>, topic: Topic): real {
    if counts == [] then 0.0
    else CountOf(counts[..|counts| - 1], topic) + if counts[|counts| - 1].topic == topic then counts[|counts| - 1].count else 0.0
  }

  /** A window recorded at `at` adds to a topic's never-pruned sum what it counted for that topic, times the factor for its age. */
  lemma {:induction false} WindowAddsItsCount(r: Rates, ops: seq<Op>, counts: seq<TopicCount>, topic: Topic, at: nat, now: nat)
    requires at <= now
    ensures NeverPruned(r, ops + FoldOps(counts, at), topic, now)
         == NeverPruned(r, ops, topic, now) + CountOf(counts, topic) * r.half(now - at)
  {
    hide NeverPruned;
    if counts == [] {
      assert ops + FoldOps(counts, at) == ops;
    } else {
      var init, last := counts[..|counts| - 1], counts[|counts| - 1];
      WindowAddsItsCount(r, ops, init, topic, at, now);
      assert ops + FoldOps(counts, at) == ops + FoldOps(init, at) + [Fold(last.topic, last.count, at)];
      NeverPrunedThen(r, ops + FoldOps(init, at), Fold(last.topic, last.count, at), topic, now);
      Distributes(CountOf(init, topic), last.count, r.half(now - at));
    }
  }

  lemma Distributes(x: real, y: real, f: real)
    ensures (x + y) * f == x * f + y * f
  {
  }

  /**
    The reading law with the bound of this ledger's constants: two half-lives
    quarter a loss, so drops cannot add up to more than 4/3 of the epsilon, 1/15.
  */
  lemma TopicCountLaw(half: nat -> real, ops: seq<Op>, topic: Topic, now: nat)
    requires Halving(TopicRates(half)) && Ordered(ops, now)
    ensures var r := TopicRates(half);
            && (LastDrop(r, ops, topic).None? ==> Reading(r, After(r, ops), topic, now) == NeverPruned(r, ops, topic, now))
            && Abs(NeverPruned(r, ops, topic, now) - Reading(r, After(r, ops), topic, now)) < 1.0 / 15.0
  {
    var r := TopicRates(half);
    Product(r, r.halfLife, r.horizon);
    ReadingIsWithin(r, ops, topic, now, 1.0 / 15.0);
  }

  predicate TopicLt(a: Topic, b: Topic) {
    LexLt(a, b)
  }

  lemma TopicLtIsTotal()
    ensures StrictTotal(TopicLt)
  {
    forall a: Topic, b: Topic ensures (TopicLt(a, b) ==> !TopicLt(b, a)) && (a == b || TopicLt(a, b) || TopicLt(b, a)) {
      LexAsymmetric(a, b);
    }
    forall a: Topic, b: Topic, c: Topic | TopicLt(a, b) && TopicLt(b, c) ensures TopicLt(a, c) {
      LexTransitive(a, b, c);
    }
  }

  /** Every topic once, decayed to `now`, highest count first, equal counts by topic. */
  method Ranked(ledger: PersistentLedger, now: nat) returns (out: seq<RankedRow>)
    ensures IsRanking(ledger.rates, ledger.rows, now, k => true, TopicLt, out)
  {
    TopicLtIsTotal();
    out := ledger.Ranked(now, k => true, TopicLt);
  }
}
