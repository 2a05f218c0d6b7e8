/** What every run of the durable audit log keeps, and what a reopen therefore finds. */
module AuditSafety {
  import opened Wrappers
  import opened Bytes
  import opened HmacChain
  import opened AuditStore
  import opened AuditProtocol

  lemma StepKeeps(env: Env, w: World, es: seq<SignedEntry>, lag: Option<nat>, ev: Event)
    requires Faithful(env.x) && Inv(env, w, es, lag) && Step(env, w, ev).Some?
    ensures var write := Landing(w, ev);
            var es' := if write.RowWritten? then es + [write.e] else es;
            var lag' := if write.AnchorWritten? then Some(0) else if write.RowWritten? && lag.Some? then Some(lag.value + 1) else lag;
            Inv(env, Step(env, w, ev).value, es', lag')
  {
    if w.session.None? {
      InvReopens(env, w, es, lag, ev.rows);
      assert NothingLost(NewSession(es), es);
    } else {
      LandingKeeps(env, w, es, lag, Landing(w, ev));
      if ev.Kill? {
      } else if AppenderStep(env, w.session.value, ev).Some? {
        AppenderKeeps(env, w.session.value, es, ev);
      } else {
        DrainKeeps(env, w, es, ev);
      }
    }
  }

  /** In every run, the disk holds the durable entries as a valid chain and the anchor lags by the counted amount. */
  lemma {:induction false} RunKeeps(env: Env, run: seq<Event>)
    requires Faithful(env.x) && Possible(env, run)
    ensures Inv(env, Exec(env, run).value, Durable(env, run), Lag(env, run))
  {
    if run != [] {
      RunKeeps(env, run[..|run| - 1]);
      StepKeeps(env, Exec(env, run[..|run| - 1]).value, Durable(env, run[..|run| - 1]), Lag(env, run[..|run| - 1]), run[|run| - 1]);
    }
  }

  // ---- What the protocol promises ----

  /**
    Whatever was interleaved, failed or killed: the rows on disk are a prefix
    of the chain in memory, and reopening the store succeeds with exactly them.
  */
  lemma {:induction false} CrashSafety(env: Env, run: seq<Event>, rows: seq<Row>)
    requires Faithful(env.x) && Possible(env, run)
    requires IsScan(Exec(env, run).value.disk, AUDIT_KEY_PREFIX, rows)
    ensures var w := Exec(env, run).value;
            && (w.session.Some? ==> Durable(env, run) <= w.session.value.chain)
            && Recovered(env.c, env.key, env.x, w.disk, rows) == Ok(Durable(env, run))
            && (w.session.None? ==>
                  Exec(env, run + [Reopen(rows)]) == Some(World(Some(NewSession(Durable(env, run))), w.disk)))
  {
    RunKeeps(env, run);
    InvReopens(env, Exec(env, run).value, Durable(env, run), Lag(env, run), rows);
    assert (run + [Reopen(rows)])[..|run|] == run;
  }

  /** A healthy session that has drained its channel has lost nothing. */
  lemma {:induction false} HealthyAndDrainedIsDurable(env: Env, run: seq<Event>, s: Session)
    requires Faithful(env.x) && Possible(env, run) && Exec(env, run).value.session == Some(s)
    requires s.healthy && s.appender.Outside? && s.channel == [] && s.drain.Waiting?
    ensures Durable(env, run) == s.chain
  {
    RunKeeps(env, run);
    hide Exec, Durable, Lag, Holds, Accepts, AnchorLags;
  }

  /** A fault is for good: until the process ends, the first one is remembered and health never returns. */
  lemma FirstFaultStands(env: Env, w: World, ev: Event, s: Session, s': Session)
    requires w.session == Some(s) && Step(env, w, ev).Some? && Step(env, w, ev).value.session == Some(s')
    ensures s.firstError.Some? ==> s'.firstError == s.firstError
    ensures !s.healthy ==> !s'.healthy
    ensures s.healthy && !s'.healthy && s.firstError.None? ==>
              match ev
              case FlipHealth => s'.firstError == Some(SendFailed)
              case Begin => s.drain.Taken? && env.x.encEntry(s.drain.e).None? && s'.firstError == Some(EncodeFailed(s.drain.e.seqNo))
              case RowPut(o) => o.Failed? && s.drain.PuttingRow? && s'.firstError == Some(PutFailed(s.drain.e.seqNo))
              case _ => false
  {
  }

  /** In every run a session is unhealthy exactly when it has a first fault. */
  lemma {:induction false} UnhealthyIffFault(env: Env, run: seq<Event>)
    requires Possible(env, run)
    ensures var w := Exec(env, run).value;
            w.session.Some? ==> (w.session.value.healthy <==> w.session.value.firstError.None?)
  {
    if run != [] {
      UnhealthyIffFault(env, run[..|run| - 1]);
    }
  }

  /** The channel holds 1024 entries, and a send is refused exactly when it is full or nobody reads it any more. */
  lemma {:induction false} ChannelIsBounded(env: Env, run: seq<Event>, s: Session)
    requires Possible(env, run) && Exec(env, run).value.session == Some(s)
    ensures |s.channel| <= 1024
    ensures s.appender.Cleared? && Possible(env, run + [Send]) ==>
              var after := Exec(env, run + [Send]).value.session.value;
              && (after.appender.Refused? <==> |s.channel| == 1024 || s.drain.Stopped?)
              && after.channel == if after.appender.Refused? then s.channel else s.channel + [s.appender.e]
  {
    assert (run + [Send])[..|run|] == run;
    if run != [] {
      var w := Exec(env, run[..|run| - 1]).value;
      if w.session.Some? {
        ChannelIsBounded(env, run[..|run| - 1], w.session.value);
      }
    }
  }

  /** Once unhealthy, and with no write or send under way, a session neither enqueues nor writes a row again. */
  lemma UnhealthyIsQuiet(env: Env, w: World, ev: Event, s: Session)
    requires w.session == Some(s) && Step(env, w, ev).Some?
    requires !s.healthy && !s.appender.Cleared? && !s.drain.PuttingRow?
    ensures !Landing(w, ev).RowWritten?
    ensures Step(env, w, ev).value.session.Some? ==>
              var after := Step(env, w, ev).value.session.value;
              !after.healthy && !after.appender.Cleared? && !after.drain.PuttingRow? && |after.channel| <= |s.channel|
  {
  }
}
