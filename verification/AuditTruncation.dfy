/**
  How much of the tail can go missing unnoticed: exactly what the anchor lags
  by, which kills between the two writes can make any number.
*/
module AuditTruncation {
  import opened Wrappers
  import opened Bytes
  import opened HmacChain
  import opened AuditStore
  import opened AuditProtocol
  import opened AuditSafety

  lemma TruncationOf(env: Env, w: World, es: seq<SignedEntry>, lag: Option<nat>, t: nat, rows: seq<Row>)
    requires Inv(env, w, es, lag) && t <= |es|
    requires IsScan(Truncated(w.disk, |es|, t), AUDIT_KEY_PREFIX, rows)
    ensures Recovered(env.c, env.key, env.x, Truncated(w.disk, |es|, t), rows).Ok? <==> lag.None? || t <= lag.value
  {
    hide Accepts, Holds, Truncated, IsScan, Decoded, ReadAnchor, Consistent;
    var kept := es[..|es| - t];
    TruncatedHolds(env.x, w.disk, es, t);
    PrefixAccepted(env.c, env.key, es, |es| - t);
    DecodesExactly(env.c, env.key, env.x, Truncated(w.disk, |es|, t), rows, kept);
    if kept != [] { LastSeq(env, kept); }
  }

  /**
    Exact truncation detection: with an anchor on disk, deleting the last `t`
    rows goes unnoticed exactly when `t` is at most the anchor's lag.
  */
  lemma {:induction false} TruncationDetected(env: Env, run: seq<Event>, t: nat, rows: seq<Row>)
    requires Faithful(env.x) && Possible(env, run) && t <= |Durable(env, run)|
    requires IsScan(Truncated(Exec(env, run).value.disk, |Durable(env, run)|, t), AUDIT_KEY_PREFIX, rows)
    ensures Recovered(env.c, env.key, env.x, Truncated(Exec(env, run).value.disk, |Durable(env, run)|, t), rows).Ok? <==>
            Lag(env, run).None? || t <= Lag(env, run).value
  {
    RunKeeps(env, run);
    TruncationOf(env, Exec(env, run).value, Durable(env, run), Lag(env, run), t, rows);
  }

  /** What one more step does to a run and to what is counted of it. */
  lemma OneMoreStep(env: Env, run: seq<Event>, ev: Event)
    requires Possible(env, run) && Step(env, Exec(env, run).value, ev).Some?
    ensures var longer, write := run + [ev], Landing(Exec(env, run).value, ev);
            && Possible(env, longer) && Exec(env, longer) == Step(env, Exec(env, run).value, ev)
            && Durable(env, longer) == Durable(env, run) + (if write.RowWritten? then [write.e] else [])
            && Lag(env, longer) == if write.AnchorWritten? then Some(0)
                                   else if write.RowWritten? && Lag(env, run).Some? then Some(Lag(env, run).value + 1)
                                   else Lag(env, run)
  {
    hide Step, Landing;
    assert (run + [ev])[..|run + [ev]| - 1] == run;
    assert Durable(env, run) + [] == Durable(env, run);
  }

  lemma Quietly(env: Env, run: seq<Event>, w: World, ev: Event, w': World)
    requires Possible(env, run) && Exec(env, run) == Some(w)
    requires Step(env, w, ev) == Some(w') && Landing(w, ev).NoWrite?
    ensures Possible(env, run + [ev]) && Exec(env, run + [ev]) == Some(w')
    ensures Lag(env, run + [ev]) == Lag(env, run) && Durable(env, run + [ev]) == Durable(env, run)
  {
    hide Exec, Lag, Durable;
    OneMoreStep(env, run, ev);
    assert Durable(env, run) + [] == Durable(env, run);
  }

  /** One event through a freshly opened session, up to the point where its row is being written. */
  lemma OneEventToDisk(env: Env, run: seq<Event>, disk: Table, es: seq<SignedEntry>, event: AuditEvent, now: int, e: SignedEntry, value: seq<Byte>)
    requires Possible(env, run) && Exec(env, run) == Some(World(Some(NewSession(es)), disk)) && |es| < TWO_64
    requires NextEntry(env.c, env.key, es, event, now) == Some(e) && env.x.encEntry(e) == Some(value)
    ensures var longer := run + [Chain(event, now)] + [CheckHealth] + [Send] + [Take] + [Begin];
            && Possible(env, longer)
            && Exec(env, longer) == Some(World(Some(NewSession(es + [e]).(drain := PuttingRow(e, value))), disk))
            && Lag(env, longer) == Lag(env, run) && Durable(env, longer) == Durable(env, run)
  {
    hide Exec, Lag, Durable;
    var s := NewSession(es + [e]);
    var r1 := run + [Chain(event, now)];
    Quietly(env, run, World(Some(NewSession(es)), disk), Chain(event, now), World(Some(s.(appender := Chained(e))), disk));
    var r2 := r1 + [CheckHealth];
    Quietly(env, r1, World(Some(s.(appender := Chained(e))), disk), CheckHealth, World(Some(s.(appender := Cleared(e))), disk));
    var r3 := r2 + [Send];
    assert s.channel + [e] == [e];
    Quietly(env, r2, World(Some(s.(appender := Cleared(e))), disk), Send, World(Some(s.(channel := [e])), disk));
    var r4 := r3 + [Take];
    assert [e][1..] == [];
    Quietly(env, r3, World(Some(s.(channel := [e])), disk), Take, World(Some(s.(drain := Taken(e))), disk));
    Quietly(env, r4, World(Some(s.(drain := Taken(e))), disk), Begin, World(Some(s.(drain := PuttingRow(e, value))), disk));
  }

  /** A kill between a row write and its anchor write adds one to the lag: reopening does not rewrite the anchor. */
  lemma {:induction false} KillBetweenWritesGrowsLag(env: Env, run: seq<Event>, rows: seq<Row>, event: AuditEvent, now: int)
    requires Faithful(env.x) && Possible(env, run)
    requires Exec(env, run).value.session.None? && |Durable(env, run)| < TWO_64
    requires IsScan(Exec(env, run).value.disk, AUDIT_KEY_PREFIX, rows)
    requires Lag(env, run).Some?
    requires NextEntry(env.c, env.key, Durable(env, run), event, now).Some?
    requires env.x.encEntry(NextEntry(env.c, env.key, Durable(env, run), event, now).value).Some?
    ensures var reopened := run + [Reopen(rows)];
            var longer := reopened + [Chain(event, now)] + [CheckHealth] + [Send] + [Take] + [Begin] + [RowPut(Done)] + [Kill(false)];
            && Possible(env, longer)
            && Exec(env, longer).value.session.None?
            && Lag(env, longer) == Some(Lag(env, run).value + 1)
            && |Durable(env, longer)| == |Durable(env, run)| + 1
  {
    hide Exec, Lag, Step, IsScan, Durable;
    var w, es := Exec(env, run).value, Durable(env, run);
    var e := NextEntry(env.c, env.key, es, event, now).value;
    var value := env.x.encEntry(e).value;
    ReopenKeepsLag(env, run, rows);
    var reopened := run + [Reopen(rows)];
    OneEventToDisk(env, reopened, w.disk, es, event, now, e, value);
    RowThenKill(env, reopened + [Chain(event, now)] + [CheckHealth] + [Send] + [Take] + [Begin]);
  }

  /** Reopening does not touch the anchor. */
  lemma ReopenKeepsLag(env: Env, run: seq<Event>, rows: seq<Row>)
    requires Faithful(env.x) && Possible(env, run) && Exec(env, run).value.session.None?
    requires IsScan(Exec(env, run).value.disk, AUDIT_KEY_PREFIX, rows)
    ensures var reopened := run + [Reopen(rows)];
            && Possible(env, reopened)
            && Exec(env, reopened) == Some(World(Some(NewSession(Durable(env, run))), Exec(env, run).value.disk))
            && Lag(env, reopened) == Lag(env, run) && Durable(env, reopened) == Durable(env, run)
  {
    CrashSafety(env, run, rows);
    hide IsScan;
    assert (run + [Reopen(rows)])[..|run|] == run;
  }

  lemma RowThenKill(env: Env, run: seq<Event>)
    requires Possible(env, run) && Exec(env, run).value.session.Some?
    requires Exec(env, run).value.session.value.drain.PuttingRow? && Lag(env, run).Some?
    ensures var longer := run + [RowPut(Done)] + [Kill(false)];
            && Possible(env, longer)
            && Exec(env, longer).value.session.None?
            && Lag(env, longer) == Some(Lag(env, run).value + 1)
            && |Durable(env, longer)| == |Durable(env, run)| + 1
  {
    var r1 := run + [RowPut(Done)];
    RowDone(env, run);
    var w1 := Exec(env, r1).value;
    hide Exec, Lag, Durable;
    Quietly(env, r1, w1, Kill(false), World(None, w1.disk));
  }

  lemma RowDone(env: Env, run: seq<Event>)
    requires Possible(env, run) && Exec(env, run).value.session.Some?
    requires Exec(env, run).value.session.value.drain.PuttingRow?
    ensures var longer := run + [RowPut(Done)];
            && Possible(env, longer)
            && Exec(env, longer).value.session.Some?
            && Exec(env, longer).value.session.value.drain.PuttingAnchor?
            && |Durable(env, longer)| == |Durable(env, run)| + 1
            && Lag(env, longer) == if Lag(env, run).Some? then Some(Lag(env, run).value + 1) else None
  {
    hide Exec, Lag, Durable;
    OneMoreStep(env, run, RowPut(Done));
  }

  lemma AnchorDone(env: Env, run: seq<Event>)
    requires Possible(env, run) && Exec(env, run).value.session.Some?
    requires Exec(env, run).value.session.value.drain.PuttingAnchor?
    ensures var longer := run + [AnchorPut(Done)];
            && Possible(env, longer)
            && Exec(env, longer).value.session.Some?
            && Exec(env, longer).value.session.value.drain.Waiting?
            && Durable(env, longer) == Durable(env, run) && Lag(env, longer) == Some(0)
  {
    hide Exec, Lag, Durable;
    OneMoreStep(env, run, AnchorPut(Done));
  }

  /** Every event has a canonical form and every entry a stored one. */
  ghost predicate Encodes(env: Env) {
    (forall e: AuditEvent :: env.c.canon(e).Some?) && (forall e: SignedEntry :: env.x.encEntry(e).Some?)
  }

  /** The first entry of a new store, its anchor written, and a kill. */
  lemma FirstEntry(env: Env, event: AuditEvent) returns (run: seq<Event>)
    requires Faithful(env.x) && Encodes(env)
    ensures Possible(env, run) && Exec(env, run).value.session.None?
    ensures Lag(env, run) == Some(0) && |Durable(env, run)| == 1
  {
    var nothing: seq<Event> := [];
    assert IsScan(FRESH.disk, AUDIT_KEY_PREFIX, []);
    assert Exec(env, nothing) == Some(FRESH) && Durable(env, nothing) == [];
    hide Exec, Lag, Durable, IsScan, Step;
    ReopenKeepsLag(env, nothing, []);
    var e := NextEntry(env.c, env.key, [], event, 0).value;
    OneEventToDisk(env, nothing + [Reopen([])], FRESH.disk, [], event, 0, e, env.x.encEntry(e).value);
    run := nothing + [Reopen([])] + [Chain(event, 0)] + [CheckHealth] + [Send] + [Take] + [Begin];
    RowDone(env, run);
    run := run + [RowPut(Done)];
    AnchorDone(env, run);
    run := run + [AnchorPut(Done)];
    var w := Exec(env, run).value;
    KillsIdle(env, w);
    Quietly(env, run, w, Kill(false), World(None, w.disk));
    run := run + [Kill(false)];
  }

  lemma KillsIdle(env: Env, w: World)
    requires w.session.Some?
    ensures Step(env, w, Kill(false)) == Some(World(None, w.disk)) && Landing(w, Kill(false)).NoWrite?
  {
  }

  /** The lag has no bound: from a store that has never been written, every lag is reached. */
  lemma {:induction false} EveryLagIsReached(env: Env, event: AuditEvent, n: nat) returns (run: seq<Event>)
    requires Faithful(env.x) && Encodes(env) && n < TWO_64
    ensures Possible(env, run) && Exec(env, run).value.session.None?
    ensures Lag(env, run) == Some(n) && |Durable(env, run)| == n + 1
  {
    if n == 0 {
      run := FirstEntry(env, event);
    } else {
      var before := EveryLagIsReached(env, event, n - 1);
      hide Exec, Lag, Durable, Step, IsScan;
      var rows := ScanExists(Exec(env, before).value.disk, AUDIT_KEY_PREFIX);
      KillBetweenWritesGrowsLag(env, before, rows, event, 0);
      run := before + [Reopen(rows)] + [Chain(event, 0)] + [CheckHealth] + [Send] + [Take] + [Begin] + [RowPut(Done)] + [Kill(false)];
    }
  }

  /**
    So the documented bound of one unnoticed tail entry fails for every larger
    number: after some run, deleting the last `n` of the rows reopens.
  */
  lemma AnyTailCanGoUnnoticed(env: Env, event: AuditEvent, n: nat) returns (run: seq<Event>, rows: seq<Row>)
    requires Faithful(env.x) && Encodes(env) && n < TWO_64
    ensures Possible(env, run) && n < |Durable(env, run)|
    ensures IsScan(Truncated(Exec(env, run).value.disk, |Durable(env, run)|, n), AUDIT_KEY_PREFIX, rows)
    ensures Recovered(env.c, env.key, env.x, Truncated(Exec(env, run).value.disk, |Durable(env, run)|, n), rows).Ok?
  {
    hide Exec, Lag, Durable, IsScan, Recovered, Truncated;
    run := EveryLagIsReached(env, event, n);
    rows := ScanExists(Truncated(Exec(env, run).value.disk, |Durable(env, run)|, n), AUDIT_KEY_PREFIX);
    TruncationDetected(env, run, n, rows);
  }
}
