/**
  The law shared by the learning ledgers: a row's score halves with time, new
  observations are added on top, and rows that have become negligible and
  stale are dropped. How far can a reading be from the never-pruned sum?
*/
module DecayingLedger {
  import opened Wrappers
  import opened Bytes
  import opened Sorting

  const SAMPLES_MAX: nat := 0xFFFF_FFFF

  /** `half(dt)` is the factor by which a score shrinks in `dt` seconds. */
  datatype Rates = Rates(half: nat -> real, halfLife: nat, epsilon: real, horizon: nat)

  predicate Multiplies(r: Rates, a: nat, b: nat) {
    r.half(a + b) == r.half(a) * r.half(b)
  }

  predicate Shrinks(r: Rates, a: nat) {
    0.0 < r.half(a) <= 1.0
  }

  ghost predicate Halving(r: Rates) {
    && r.half(0) == 1.0
    && (forall a: nat, b: nat :: Multiplies(r, a, b))
    && (forall a: nat :: Shrinks(r, a))
    && r.half(r.halfLife) == 0.5
    && r.epsilon > 0.0
  }

  datatype Row = Row(score: real, samples: nat, last: nat)

  type Ledger = map<seq<Byte>, Row>

  function Decayed(r: Rates, score: real, last: nat, now: nat): real {
    if now <= last then score else score * r.half(now - last)
  }

  function Abs(x: real): real {
    if x < 0.0 then -x else x
  }

  function Folded(r: Rates, prev: Option<Row>, net: real, now: nat): Row {
    match prev
    case None => Row(net, 1, now)
    case Some(p) =>
      Row(Decayed(r, p.score, p.last, now) + net, if p.samples < SAMPLES_MAX then p.samples + 1 else SAMPLES_MAX, now)
  }

  predicate Prunable(r: Rates, row: Row, now: nat) {
    Abs(Decayed(r, row.score, row.last, now)) < r.epsilon && now > row.last && now - row.last > r.horizon
  }

  datatype Op = Fold(key: seq<Byte>, net: real, at: nat) | Prune(at: nat)

  function Lookup(l: Ledger, k: seq<Byte>): Option<Row> {
    if k in l then Some(l[k]) else None
  }

  function Apply(r: Rates, l: Ledger, op: Op): Ledger {
    match op
    case Fold(k, net, at) => l[k := Folded(r, Lookup(l, k), net, at)]
    case Prune(at) => map k | k in l && !Prunable(r, l[k], at) :: l[k]
  }

  /** The ledger after a history, from an empty store. */
  function After(r: Rates, ops: seq<Op>): Ledger {
    if ops == [] then map[] else Apply(r, After(r, ops[..|ops| - 1]), ops[|ops| - 1])
  }

  /** The clock never runs backwards in `ops` and has not passed `now`. */
  ghost predicate Ordered(ops: seq<Op>, now: nat) {
    && (forall i :: 0 <= i < |ops| ==> ops[i].at <= now)
    && (forall i, j :: 0 <= i < j < |ops| ==> ops[i].at <= ops[j].at)
  }

  /** What a point lookup reads; an absent row counts as nothing. */
  function Reading(r: Rates, l: Ledger, k: seq<Byte>, now: nat): real {
    if k in l then Decayed(r, l[k].score, l[k].last, now) else 0.0
  }

  /** The sum of every net ever folded into `k`, each times the factor for its own age: what no pruning would give. */
  function NeverPruned(r: Rates, ops: seq<Op>, k: seq<Byte>, now: nat): real {
    if ops == [] then 0.0
    else
      var op := ops[|ops| - 1];
      NeverPruned(r, ops[..|ops| - 1], k, now)
      + if op.Fold? && op.key == k then op.net * r.half(if op.at <= now then now - op.at else 0) else 0.0
  }

  /** When a prune last dropped the row of `k`. */
  function LastDrop(r: Rates, ops: seq<Op>, k: seq<Byte>): Option<nat> {
    if ops == [] then None
    else
      var op, before := ops[|ops| - 1], After(r, ops[..|ops| - 1]);
      if op.Prune? && k in before && Prunable(r, before[k], op.at) then Some(op.at)
      else LastDrop(r, ops[..|ops| - 1], k)
  }

  /** There is no last drop exactly when no prune of the history took the row away. */
  lemma {:induction false} NeverDroppedIff(r: Rates, ops: seq<Op>, k: seq<Byte>)
    ensures LastDrop(r, ops, k).None? <==>
            forall i :: 0 <= i < |ops| && k in After(r, ops[..i]) ==> k in After(r, ops[..i + 1])
  {
    if ops != [] {
      var n := |ops| - 1;
      NeverDroppedIff(r, ops[..n], k);
      assert forall i :: 0 <= i <= n ==> ops[..n][..i] == ops[..i];
      assert ops[..n + 1] == ops;
      assert k in After(r, ops[..n]) ==> (k !in After(r, ops) <==> ops[n].Prune? && Prunable(r, After(r, ops[..n])[k], ops[n].at));
      hide After, Prunable;
    }
  }

  function Loss(r: Rates, ops: seq<Op>, k: seq<Byte>, now: nat): real {
    NeverPruned(r, ops, k, now) - Reading(r, After(r, ops), k, now)
  }

  lemma Unit(r: Rates, a: nat)
    requires Halving(r)
    ensures 0.0 < r.half(a) <= 1.0
  {
    assert Shrinks(r, a);
  }

  lemma Product(r: Rates, a: nat, b: nat)
    requires Halving(r) && a <= b
    ensures r.half(b) == r.half(a) * r.half(b - a)
  {
    assert Multiplies(r, a, b - a);
  }

  lemma HalfShrinks(r: Rates, a: nat, b: nat)
    requires Halving(r) && a <= b
    ensures r.half(b) <= r.half(a)
  {
    Product(r, a, b);
    Unit(r, a);
    Unit(r, b - a);
    Attenuated(r.half(a), r.half(b - a));
  }

  lemma Attenuated(x: real, f: real)
    requires x >= 0.0 && f <= 1.0
    ensures x * f <= x
  {
  }

  lemma Scaled(x: real, y: real, c: real)
    requires x <= y && c >= 0.0
    ensures x * c <= y * c
  {
  }

  /** Decaying in two steps is decaying once. */
  lemma DecayComposes(r: Rates, score: real, last: nat, mid: nat, now: nat)
    requires Halving(r) && last <= mid <= now
    ensures Decayed(r, Decayed(r, score, last, mid), mid, now) == Decayed(r, score, last, now)
  {
    Product(r, mid - last, now - last);
    assert score * (r.half(mid - last) * r.half(now - mid)) == score * r.half(mid - last) * r.half(now - mid);
  }

  lemma DecayIsLinear(r: Rates, x: real, y: real, last: nat, now: nat)
    ensures Decayed(r, x + y, last, now) == Decayed(r, x, last, now) + Decayed(r, y, last, now)
  {
  }

  /** A row was last touched between the key's last drop and now. */
  lemma {:induction false} RowTimes(r: Rates, ops: seq<Op>, k: seq<Byte>, now: nat)
    requires Ordered(ops, now)
    ensures LastDrop(r, ops, k).Some? ==> LastDrop(r, ops, k).value <= now
    ensures k in After(r, ops) ==>
              After(r, ops)[k].last <= now
              && (LastDrop(r, ops, k).Some? ==> LastDrop(r, ops, k).value <= After(r, ops)[k].last)
  {
    if ops != [] {
      RowTimes(r, ops[..|ops| - 1], k, ops[|ops| - 1].at);
    }
  }

  lemma FoldReads(r: Rates, ops: seq<Op>, k: seq<Byte>, net: real, at: nat, now: nat)
    requires Halving(r) && Ordered(ops, at) && at <= now
    ensures Reading(r, Apply(r, After(r, ops), Fold(k, net, at)), k, now)
         == Reading(r, After(r, ops), k, now) + net * r.half(now - at)
  {
    assert Decayed(r, net, at, now) == net * r.half(now - at);
    if k in After(r, ops) {
      RowTimes(r, ops, k, at);
      var row := After(r, ops)[k];
      DecayComposes(r, row.score, row.last, at, now);
      DecayIsLinear(r, Decayed(r, row.score, row.last, at), net, at, now);
    }
  }

  lemma NeverPrunedThen(r: Rates, ops: seq<Op>, op: Op, k: seq<Byte>, now: nat)
    ensures NeverPruned(r, ops + [op], k, now)
         == NeverPruned(r, ops, k, now) + if op.Fold? && op.key == k then op.net * r.half(if op.at <= now then now - op.at else 0) else 0.0
  {
    assert (ops + [op])[..|ops|] == ops;
  }

  lemma UntouchedReads(r: Rates, l: Ledger, op: Op, k: seq<Byte>, now: nat)
    requires !(op.Fold? && op.key == k) && !(op.Prune? && k in l && Prunable(r, l[k], op.at))
    ensures Reading(r, Apply(r, l, op), k, now) == Reading(r, l, k, now)
  {
    hide Prunable, Decayed;
  }

  /** A prune keeps every row but those that are both below the epsilon and untouched for longer than the horizon. */
  lemma PruneDropsIff(r: Rates, l: Ledger, k: seq<Byte>, now: nat)
    requires k in l
    ensures var row, kept := l[k], Apply(r, l, Prune(now));
      && (k in kept ==> kept[k] == row)
      && (k !in kept <==>
            && now > row.last && now - row.last > r.horizon
            && -r.epsilon < row.score * r.half(now - row.last) < r.epsilon)
  {
  }

  /** A step that does not drop `k` does not change what is lost on it. */
  lemma StepKeepsLoss(r: Rates, ops: seq<Op>, op: Op, k: seq<Byte>, now: nat)
    requires Halving(r) && Ordered(ops, op.at) && op.at <= now
    requires !(op.Prune? && k in After(r, ops) && Prunable(r, After(r, ops)[k], op.at))
    ensures Loss(r, ops + [op], k, now) == Loss(r, ops, k, now)
  {
    hide Reading, NeverPruned, Halving, Ordered, Prunable;
    assert (ops + [op])[..|ops|] == ops;
    assert After(r, ops + [op]) == Apply(r, After(r, ops), op);
    NeverPrunedThen(r, ops, op, k, now);
    hide After, Apply;
    if op.Fold? && op.key == k {
      assert op == Fold(k, op.net, op.at) && (if op.at <= now then now - op.at else 0) == now - op.at;
      FoldReads(r, ops, k, op.net, op.at, now);
    } else {
      UntouchedReads(r, After(r, ops), op, k, now);
    }
  }

  /** A drop adds to the loss exactly what was readable when it happened. */
  lemma DropAddsReading(r: Rates, ops: seq<Op>, at: nat, k: seq<Byte>, now: nat)
    requires Halving(r) && Ordered(ops, at) && at <= now
    requires k in After(r, ops) && Prunable(r, After(r, ops)[k], at)
    ensures exists lost | -r.epsilon < lost < r.epsilon ::
              Loss(r, ops + [Prune(at)], k, now) == Loss(r, ops, k, now) + Decayed(r, lost, at, now)
  {
    var all := ops + [Prune(at)];
    assert all[..|ops|] == ops;
    RowTimes(r, ops, k, at);
    var row := After(r, ops)[k];
    var lost := Decayed(r, row.score, row.last, at);
    DecayComposes(r, row.score, row.last, at, now);
    assert Loss(r, all, k, now) == Loss(r, ops, k, now) + Decayed(r, lost, at, now);
  }

  /** `q` bounds the first factor: what was lost before has shrunk below `q` by the next drop. */
  lemma BoundsAdd(before: real, l: real, q: real, eh: real)
    requires 0.0 < q <= 1.0
    requires Abs(before) * (1.0 - q) < eh * q && Abs(l) < eh
    ensures Abs(before + l) * (1.0 - q) < eh
  {
    Scaled(Abs(l), eh, 1.0 - q);
    Scaled(Abs(before + l), Abs(before) + Abs(l), 1.0 - q);
    assert (Abs(before) + Abs(l)) * (1.0 - q) == Abs(before) * (1.0 - q) + Abs(l) * (1.0 - q);
    assert eh * (1.0 - q) + eh * q == eh;
  }

  lemma ShrunkByHorizon(r: Rates, d: nat, at: nat, now: nat)
    requires Halving(r) && d <= at <= now && at - d > r.horizon
    ensures r.epsilon * r.half(now - d) <= r.epsilon * r.half(now - at) * r.half(r.horizon)
  {
    var q, h := r.half(r.horizon), r.half(now - at);
    Product(r, at - d, now - d);
    Unit(r, now - at);
    HalfShrinks(r, r.horizon, at - d);
    Scaled(r.half(at - d), q, h);
    Scaled(r.half(now - d), q * h, r.epsilon);
    assert r.epsilon * (q * h) == r.epsilon * h * q;
  }

  lemma OneMoreDrop(r: Rates, before: real, lost: real, d: nat, at: nat, now: nat)
    requires Halving(r) && d <= at <= now && at - d > r.horizon
    requires Abs(before) * (1.0 - r.half(r.horizon)) < r.epsilon * r.half(now - d)
    requires -r.epsilon < lost < r.epsilon
    ensures Abs(before + Decayed(r, lost, at, now)) * (1.0 - r.half(r.horizon)) < r.epsilon * r.half(now - at)
  {
    ShrunkByHorizon(r, d, at, now);
    FirstDrop(r, lost, at, now);
    Unit(r, r.horizon);
    BoundsAdd(before, Decayed(r, lost, at, now), r.half(r.horizon), r.epsilon * r.half(now - at));
  }

  lemma FirstDrop(r: Rates, lost: real, at: nat, now: nat)
    requires Halving(r) && at <= now && -r.epsilon < lost < r.epsilon
    ensures Abs(Decayed(r, lost, at, now)) < r.epsilon * r.half(now - at)
  {
    var h := r.half(now - at);
    Unit(r, now - at);
    StrictlyScaled(lost, r.epsilon, h);
    StrictlyScaled(-r.epsilon, lost, h);
    assert Decayed(r, lost, at, now) == lost * h;
  }

  lemma FirstDropBound(r: Rates, lost: real, at: nat, now: nat)
    requires Halving(r) && at <= now && -r.epsilon < lost < r.epsilon
    ensures Abs(Decayed(r, lost, at, now)) * (1.0 - r.half(r.horizon)) < r.epsilon * r.half(now - at)
  {
    FirstDrop(r, lost, at, now);
    Unit(r, r.horizon);
    Tempered(Abs(Decayed(r, lost, at, now)), r.half(r.horizon));
  }

  lemma Tempered(x: real, q: real)
    requires x >= 0.0 && 0.0 < q <= 1.0
    ensures 0.0 <= x * (1.0 - q) <= x
  {
    Scaled(1.0 - q, 1.0, x);
    Scaled(0.0, 1.0 - q, x);
  }

  lemma StrictlyScaled(x: real, y: real, c: real)
    requires x < y && c > 0.0
    ensures x * c < y * c
  {
  }

  /** A loss of `x` is within bounds `dt` seconds after the drop that last added to it. */
  ghost predicate Within(r: Rates, x: real, dt: nat) {
    Abs(x) * (1.0 - r.half(r.horizon)) < r.epsilon * r.half(dt)
  }

  ghost predicate Bounded(r: Rates, x: real, drop: Option<nat>, now: nat) {
    match drop
    case None => x == 0.0
    case Some(d) => d <= now && Within(r, x, now - d)
  }

  lemma BoundedAfterDrop(r: Rates, x: real, drop: Option<nat>, lost: real, at: nat, now: nat)
    requires Halving(r) && Bounded(r, x, drop, now) && at <= now
    requires drop.Some? ==> drop.value <= at && at - drop.value > r.horizon
    requires -r.epsilon < lost < r.epsilon
    ensures Bounded(r, x + Decayed(r, lost, at, now), Some(at), now)
  {
    match drop
    case None => FirstDropBound(r, lost, at, now);
    case Some(d) => OneMoreDrop(r, x, lost, d, at, now);
  }

  lemma LossAfterDrop(r: Rates, ops: seq<Op>, at: nat, k: seq<Byte>, now: nat)
    requires Halving(r) && Ordered(ops, at) && at <= now
    requires k in After(r, ops) && Prunable(r, After(r, ops)[k], at)
    requires Bounded(r, Loss(r, ops, k, now), LastDrop(r, ops, k), now)
    ensures Bounded(r, Loss(r, ops + [Prune(at)], k, now), Some(at), now)
  {
    DropAddsReading(r, ops, at, k, now);
    var lost :| -r.epsilon < lost < r.epsilon
                && Loss(r, ops + [Prune(at)], k, now) == Loss(r, ops, k, now) + Decayed(r, lost, at, now);
    RowTimes(r, ops, k, at);
    BoundedAfterDrop(r, Loss(r, ops, k, now), LastDrop(r, ops, k), lost, at, now);
  }

  /** The loss, measured against the time since the last drop. */
  lemma {:induction false} LossBound(r: Rates, ops: seq<Op>, k: seq<Byte>, now: nat)
    requires Halving(r) && Ordered(ops, now)
    ensures Bounded(r, Loss(r, ops, k, now), LastDrop(r, ops, k), now)
  {
    if ops != [] {
      var init, op := ops[..|ops| - 1], ops[|ops| - 1];
      assert ops == init + [op];
      LossBound(r, init, k, now);
      if op.Prune? && k in After(r, init) && Prunable(r, After(r, init)[k], op.at) {
        LossAfterDrop(r, init, op.at, k, now);
      } else {
        StepKeepsLoss(r, init, op, k, now);
      }
    }
  }

  lemma BoundedIsSmall(r: Rates, x: real, drop: Option<nat>, now: nat)
    requires Halving(r) && Bounded(r, x, drop, now)
    ensures Abs(x) * (1.0 - r.half(r.horizon)) < r.epsilon
    ensures drop.None? ==> x == 0.0
  {
    match drop
    case None =>
    case Some(d) =>
      assert Within(r, x, now - d);
      Unit(r, now - d);
      Attenuated(r.epsilon, r.half(now - d));
  }

  /**
    For every history in clock order, a reading equals the never-pruned sum
    if no prune dropped the row, and otherwise misses it by less than
    `epsilon / (1 - half(horizon))`.
  */
  lemma ReadingIsCloseToSum(r: Rates, ops: seq<Op>, k: seq<Byte>, now: nat)
    requires Halving(r) && Ordered(ops, now)
    ensures LastDrop(r, ops, k).None? ==> Reading(r, After(r, ops), k, now) == NeverPruned(r, ops, k, now)
    ensures Abs(NeverPruned(r, ops, k, now) - Reading(r, After(r, ops), k, now)) * (1.0 - r.half(r.horizon)) < r.epsilon
  {
    hide Bounded, LastDrop, NeverPruned, Reading, After, Ordered, Halving;
    LossBound(r, ops, k, now);
    BoundedIsSmall(r, Loss(r, ops, k, now), LastDrop(r, ops, k), now);
  }

  lemma Divided(x: real, f: real, epsilon: real, c: real)
    requires x * f < epsilon <= c * f && x >= 0.0 && f >= 0.0
    ensures x < c
  {
    if x >= c { Scaled(c, x, f); }
  }

  /** The same with the division carried out: `c` is at least `epsilon / (1 - half(horizon))`. */
  lemma ReadingIsWithin(r: Rates, ops: seq<Op>, k: seq<Byte>, now: nat, c: real)
    requires Halving(r) && Ordered(ops, now) && r.epsilon <= c * (1.0 - r.half(r.horizon))
    ensures LastDrop(r, ops, k).None? ==> Reading(r, After(r, ops), k, now) == NeverPruned(r, ops, k, now)
    ensures Abs(NeverPruned(r, ops, k, now) - Reading(r, After(r, ops), k, now)) < c
  {
    hide LastDrop, NeverPruned, Reading, After, Ordered;
    ReadingIsCloseToSum(r, ops, k, now);
    Unit(r, r.horizon);
    hide Halving;
    Divided(Abs(NeverPruned(r, ops, k, now) - Reading(r, After(r, ops), k, now)), 1.0 - r.half(r.horizon), r.epsilon, c);
  }

  // ---- The stored ledger ----

  function ApplyAll(r: Rates, l: Ledger, ops: seq<Op>): Ledger {
    if ops == [] then l else Apply(r, ApplyAll(r, l, ops[..|ops| - 1]), ops[|ops| - 1])
  }

  lemma {:induction false} AfterThen(r: Rates, ops: seq<Op>, more: seq<Op>)
    ensures After(r, ops + more) == ApplyAll(r, After(r, ops), more)
  {
    if more == [] {
      assert ops + more == ops;
    } else {
      AfterThen(r, ops, more[..|more| - 1]);
      assert (ops + more)[..|ops + more| - 1] == ops + more[..|more| - 1];
    }
  }

  /** What one fold leaves to be read is its net, halved for every half-life since. */
  lemma {:induction false} HalvedPerHalfLife(r: Rates, k: seq<Byte>, net: real, at: nat, n: nat)
    requires Halving(r)
    ensures Reading(r, After(r, [Fold(k, net, at)]), k, at + (n + 1) * r.halfLife)
         == Reading(r, After(r, [Fold(k, net, at)]), k, at + n * r.halfLife) * 0.5
    ensures Reading(r, After(r, [Fold(k, net, at)]), k, at) == net
  {
    var age := n * r.halfLife;
    assert (n + 1) * r.halfLife == age + r.halfLife;
    FirstFoldReads(r, k, net, at, age);
    FirstFoldReads(r, k, net, at, age + r.halfLife);
    FirstFoldReads(r, k, net, at, 0);
    assert Multiplies(r, age, r.halfLife);
    hide Reading, After;
    assert net * (r.half(age) * 0.5) == net * r.half(age) * 0.5;
  }

  lemma {:induction false} FirstFoldReads(r: Rates, k: seq<Byte>, net: real, at: nat, age: nat)
    requires Halving(r)
    ensures Reading(r, After(r, [Fold(k, net, at)]), k, at + age) == net * r.half(age)
  {
    assert [Fold(k, net, at)][..0] == [];
    assert After(r, []) == map[];
    assert After(r, [Fold(k, net, at)]) == map[k := Row(net, 1, at)];
  }

  function DecayedRow(r: Rates, row: Row, now: nat): Row {
    row.(score := Decayed(r, row.score, row.last, now))
  }

  datatype RankedRow = RankedRow(key: seq<Byte>, row: Row)

  /** Higher score first; equal scores in key order. */
  predicate RanksBefore(keyLt: (seq<Byte>, seq<Byte>) -> bool, a: RankedRow, b: RankedRow) {
    a.row.score > b.row.score || (a.row.score == b.row.score && keyLt(a.key, b.key))
  }

  ghost predicate StrictTotal(keyLt: (seq<Byte>, seq<Byte>) -> bool) {
    && (forall a, b :: keyLt(a, b) ==> !keyLt(b, a))
    && (forall a, b, c :: keyLt(a, b) && keyLt(b, c) ==> keyLt(a, c))
    && (forall a, b :: a == b || keyLt(a, b) || keyLt(b, a))
  }

  /** The row as shown at `now`: its score times the factor for its age, its count and its time as stored. */
  predicate IsDecayed(r: Rates, row: Row, now: nat, shown: Row) {
    && shown.samples == row.samples && shown.last == row.last
    && shown.score == if now > row.last then row.score * r.half(now - row.last) else row.score
  }

  /** The decayed view of the shown rows, each once, in rank order. */
  ghost predicate IsRanking(r: Rates, l: Ledger, now: nat, shown: seq<Byte> -> bool, keyLt: (seq<Byte>, seq<Byte>) -> bool, out: seq<RankedRow>) {
    && SortedBy(out, (a, b) => RanksBefore(keyLt, a, b))
    && (forall x :: x in out <==> x.key in l && shown(x.key) && IsDecayed(r, l[x.key], now, x.row))
  }

  lemma RankOrder(keyLt: (seq<Byte>, seq<Byte>) -> bool)
    requires StrictTotal(keyLt)
    ensures TotalPreorder((a, b) => !RanksBefore(keyLt, b, a))
    ensures Asymmetric((a, b) => RanksBefore(keyLt, a, b))
  {
    var le := (a, b) => !RanksBefore(keyLt, b, a);
    forall x, y, z | le(x, y) && le(y, z) ensures le(x, z) {
      assert keyLt(z.key, y.key) || z.key == y.key || keyLt(y.key, z.key);
    }
  }

  class PersistentLedger {
    const rates: Rates
    var rows: Ledger

    constructor (rates: Rates)
      ensures this.rates == rates && rows == map[]
    {
      this.rates, rows := rates, map[];
    }

    /** Decay what is stored, add the new net, stamp the time. */
    method FoldOne(key: seq<Byte>, net: real, now: nat)
      modifies this
      ensures rows == Apply(rates, old(rows), Fold(key, net, now))
      ensures rows.Keys == old(rows).Keys + {key} && forall k :: k in rows && k != key ==> rows[k] == old(rows)[k]
      ensures rows[key].last == now
      ensures key !in old(rows) ==> rows[key].score == net && rows[key].samples == 1
      ensures key in old(rows) ==>
                var was := old(rows)[key];
                && rows[key].score == (if now > was.last then was.score * rates.half(now - was.last) else was.score) + net
                && rows[key].samples == if was.samples < 0xFFFF_FFFF then was.samples + 1 else 0xFFFF_FFFF
    {
      var row := Row(net, 1, now);
      if key in rows {
        var prev := rows[key];
        var samples := if prev.samples < SAMPLES_MAX then prev.samples + 1 else SAMPLES_MAX;
        row := Row(Decayed(rates, prev.score, prev.last, now) + net, samples, now);
      }
      rows := rows[key := row];
    }

    method PointLookup(key: seq<Byte>, now: nat) returns (row: Option<Row>)
      ensures row.Some? <==> key in rows
      ensures row.Some? ==> IsDecayed(rates, rows[key], now, row.value) && row.value.score == Reading(rates, rows, key, now)
    {
      row := if key in rows then Some(DecayedRow(rates, rows[key], now)) else None;
    }

    /** Walk the rows as they were scanned and delete the dead ones. */
    method PruneStale(now: nat) returns (pruned: nat)
      modifies this
      ensures rows == Apply(rates, old(rows), Prune(now))
      ensures pruned == |old(rows)| - |rows|
    {
      pruned := 0;
      var scanned := rows;
      var left := scanned.Keys;
      while left != {}
        invariant left <= scanned.Keys && rows.Keys <= scanned.Keys
        invariant forall k :: k in scanned ==> (k in rows <==> k in left || !Prunable(rates, scanned[k], now))
        invariant forall k :: k in rows ==> rows[k] == scanned[k]
        invariant pruned == |scanned| - |rows|
        decreases left
      {
        var k :| k in left;
        left := left - {k};
        var row := scanned[k];
        if Abs(Decayed(rates, row.score, row.last, now)) < rates.epsilon && now > row.last && now - row.last > rates.horizon {
          assert rows.Keys - {k} == (rows - {k}).Keys;
          rows := rows - {k};
          pruned := pruned + 1;
        }
      }
    }

    method Ranked(now: nat, shown: seq<Byte> -> bool, keyLt: (seq<Byte>, seq<Byte>) -> bool) returns (out: seq<RankedRow>)
      requires StrictTotal(keyLt)
      ensures IsRanking(rates, rows, now, shown, keyLt, out)
    {
      var list: seq<RankedRow> := [];
      var left := rows.Keys;
      while left != {}
        invariant left <= rows.Keys
        invariant forall x :: x in list <==> x.key in rows.Keys - left && shown(x.key) && x.row == DecayedRow(rates, rows[x.key], now)
        invariant Distinct(list)
        decreases left
      {
        var k :| k in left;
        left := left - {k};
        if shown(k) {
          list := list + [RankedRow(k, DecayedRow(rates, rows[k], now))];
        }
      }
      RankOrder(keyLt);
      SortDistinct(list, (a, b) => !RanksBefore(keyLt, b, a), (a, b) => RanksBefore(keyLt, a, b));
      out := Sort(list, (a, b) => !RanksBefore(keyLt, b, a));
    }
  }
}
