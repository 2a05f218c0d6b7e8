/**
  The durable audit log as a protocol: an appender that chains and enqueues, a
  drain task that writes each row and then the anchor, and a store that
  survives kills. Every step below is atomic in the source; everything between
  two steps can be interleaved.
*/
module AuditProtocol {
  import opened Wrappers
  import opened Bytes
  import opened HmacChain
  import opened AuditStore

  const CHANNEL_CAPACITY: nat := 1024

  datatype Env = Env(c: Primitives, key: seq<Byte>, x: Codec)

  datatype Fault = SendFailed | EncodeFailed(at: nat) | PutFailed(at: nat)

  /** Where the appending caller stands inside `append`. */
  datatype Appender = Outside | Chained(e: SignedEntry) | Cleared(e: SignedEntry) | Refused

  /** Where the drain task stands inside its loop. */
  datatype Drain = Waiting | Taken(e: SignedEntry) | PuttingRow(e: SignedEntry, value: seq<Byte>) | PuttingAnchor(e: SignedEntry) | Stopped

  datatype Session = Session(
    chain: seq<SignedEntry>, appender: Appender, channel: seq<SignedEntry>,
    healthy: bool, firstError: Option<Fault>, drain: Drain)

  datatype World = World(session: Option<Session>, disk: Table)

  const FRESH: World := World(None, map[])

  /** A put that reports an error, or is cancelled, may or may not have landed. */
  datatype PutOutcome = Done | Failed(landed: bool) | Cancelled(landed: bool) {
    predicate Landed() {
      Done? || landed
    }
  }

  datatype Event =
    | Chain(event: AuditEvent, now: int)
    | CheckHealth
    | Send
    | FlipHealth
    | Take
    | Begin
    | RowPut(outcome: PutOutcome)
    | AnchorPut(outcome: PutOutcome)
    | Kill(landed: bool)
    | Reopen(rows: seq<Row>)

  function MarkUnhealthy(s: Session, fault: Fault): Session {
    s.(healthy := false, firstError := if s.firstError.Some? then s.firstError else Some(fault))
  }

  /** The step the appender takes, if `ev` is its next one. */
  function AppenderStep(env: Env, s: Session, ev: Event): Option<Session> {
    match (ev, s.appender)
    case (Chain(event, now), Outside) =>
      if |s.chain| >= TWO_64 then None
      else (match NextEntry(env.c, env.key, s.chain, event, now)
            case None => Some(s)
            case Some(e) => Some(s.(chain := s.chain + [e], appender := Chained(e))))
    case (CheckHealth, Chained(e)) =>
      Some(s.(appender := if s.healthy then Cleared(e) else Outside))
    case (Send, Cleared(e)) =>
      if s.drain.Stopped? || |s.channel| >= CHANNEL_CAPACITY then Some(s.(appender := Refused))
      else Some(s.(channel := s.channel + [e], appender := Outside))
    case (FlipHealth, Refused) =>
      Some(MarkUnhealthy(s, SendFailed).(appender := Outside))
    case _ => None
  }

  /** The step the drain task takes, if `ev` is its next one. Stopping drops the receiver and what it held. */
  function DrainStep(env: Env, s: Session, ev: Event): Option<Session> {
    match (ev, s.drain)
    case (Take, Waiting) =>
      if s.channel == [] then None
      else Some(s.(channel := s.channel[1..], drain := Taken(s.channel[0])))
    case (Begin, Taken(e)) =>
      if !s.healthy then Some(s.(drain := Waiting))
      else (match env.x.encEntry(e)
            case None => Some(MarkUnhealthy(s, EncodeFailed(e.seqNo)).(drain := Waiting))
            case Some(value) => Some(s.(drain := PuttingRow(e, value))))
    case (RowPut(Done), PuttingRow(e, _)) => Some(s.(drain := PuttingAnchor(e)))
    case (RowPut(Failed(_)), PuttingRow(e, _)) => Some(MarkUnhealthy(s, PutFailed(e.seqNo)).(drain := Waiting))
    case (RowPut(Cancelled(_)), PuttingRow(_, _)) => Some(s.(drain := Stopped, channel := []))
    case (AnchorPut(Cancelled(_)), PuttingAnchor(_)) => Some(s.(drain := Stopped, channel := []))
    case (AnchorPut(_), PuttingAnchor(_)) => Some(s.(drain := Waiting))
    case _ => None
  }

  datatype Write = NoWrite | RowWritten(e: SignedEntry, value: seq<Byte>) | AnchorWritten(e: SignedEntry)

  /** The write that lands on disk with `ev`, if one does. */
  function Landing(w: World, ev: Event): Write {
    if w.session.None? then NoWrite
    else
      var landed := match ev
        case RowPut(o) => o.Landed()
        case AnchorPut(o) => o.Landed()
        case Kill(b) => b
        case _ => false;
      if !landed then NoWrite
      else match w.session.value.drain
        case PuttingRow(e, value) => RowWritten(e, value)
        case PuttingAnchor(e) => AnchorWritten(e)
        case _ => NoWrite
  }

  function DiskAfter(env: Env, disk: Table, write: Write): Table {
    match write
    case NoWrite => disk
    case RowWritten(e, value) => disk[AuditKey(e.seqNo) := value]
    case AnchorWritten(e) => disk[CHAIN_ANCHOR_KEY := env.x.encAnchor(ChainAnchor(e.seqNo, e.mac))]
  }

  function NewSession(es: seq<SignedEntry>): Session {
    Session(es, Outside, [], true, None, Waiting)
  }

  ghost function Step(env: Env, w: World, ev: Event): Option<World> {
    match w.session
    case None =>
      if ev.Reopen? && IsScan(w.disk, AUDIT_KEY_PREFIX, ev.rows) then
        (match Recovered(env.c, env.key, env.x, w.disk, ev.rows)
         case Err(_) => Some(w)
         case Ok(es) => Some(w.(session := Some(NewSession(es)))))
      else None
    case Some(s) =>
      var disk := DiskAfter(env, w.disk, Landing(w, ev));
      if ev.Kill? then Some(World(None, disk))
      else if AppenderStep(env, s, ev).Some? then Some(World(AppenderStep(env, s, ev), disk))
      else if DrainStep(env, s, ev).Some? then Some(World(DrainStep(env, s, ev), disk))
      else None
  }

  /** The world after a run of events from a store that has never been written. */
  ghost function Exec(env: Env, run: seq<Event>): Option<World> {
    if run == [] then Some(FRESH)
    else
      match Exec(env, run[..|run| - 1])
      case None => None
      case Some(w) => Step(env, w, run[|run| - 1])
  }

  ghost predicate Possible(env: Env, run: seq<Event>) {
    Exec(env, run).Some?
  }

  ghost function LastWrite(env: Env, run: seq<Event>): Write
    requires Possible(env, run) && run != []
  {
    Landing(Exec(env, run[..|run| - 1]).value, run[|run| - 1])
  }

  /** The entries whose row writes landed, in the order they landed. */
  ghost function Durable(env: Env, run: seq<Event>): seq<SignedEntry>
    requires Possible(env, run)
  {
    if run == [] then []
    else
      var before := Durable(env, run[..|run| - 1]);
      match LastWrite(env, run)
      case RowWritten(e, _) => before + [e]
      case _ => before
  }

  /** How many row writes landed since the last anchor write that did; `None` while no anchor write ever has. */
  ghost function Lag(env: Env, run: seq<Event>): Option<nat>
    requires Possible(env, run)
  {
    if run == [] then None
    else
      var before := Lag(env, run[..|run| - 1]);
      match LastWrite(env, run)
      case AnchorWritten(_) => Some(0)
      case RowWritten(_, _) => if before.Some? then Some(before.value + 1) else None
      case NoWrite => before
  }

  // ---- The invariant of every run ----

  function InFlight(d: Drain): seq<SignedEntry> {
    if d.Taken? || d.PuttingRow? then [d.e] else []
  }

  function InHand(a: Appender): seq<SignedEntry> {
    if a.Chained? || a.Cleared? then [a.e] else []
  }

  function Pending(s: Session): seq<SignedEntry> {
    InFlight(s.drain) + s.channel + InHand(s.appender)
  }

  /** While the session is healthy and drains, what is chained but not durable is exactly what is on its way. */
  ghost predicate NothingLost(s: Session, es: seq<SignedEntry>) {
    if s.appender.Refused? then
      s.chain != [] && s.chain[..|s.chain| - 1] == es + Pending(s)
    else
      s.chain == es + Pending(s)
  }

  ghost predicate Consistent(env: Env, s: Session, es: seq<SignedEntry>) {
    && Accepts(env.c, env.key, s.chain) && |s.chain| <= TWO_64
    && es <= s.chain
    && (s.drain.PuttingRow? ==>
          es + [s.drain.e] <= s.chain && env.x.encEntry(s.drain.e) == Some(s.drain.value))
    && (s.drain.PuttingAnchor? ==> es != [] && s.drain.e == es[|es| - 1])
    && (s.healthy && !s.drain.Stopped? ==> NothingLost(s, es))
  }

  /** The anchor names the row `lag` places before the last, with that row's tag. */
  ghost predicate AnchorLags(env: Env, disk: Table, es: seq<SignedEntry>, lag: Option<nat>) {
    match lag
    case None => ReadAnchor(env.x, disk) == Ok(None)
    case Some(n) =>
      n < |es| && ReadAnchor(env.x, disk) == Ok(Some(ChainAnchor(|es| - 1 - n, es[|es| - 1 - n].mac)))
  }

  ghost predicate Inv(env: Env, w: World, es: seq<SignedEntry>, lag: Option<nat>) {
    && Holds(env.x, w.disk, es)
    && Accepts(env.c, env.key, es)
    && AnchorLags(env, w.disk, es, lag)
    && (w.session.Some? ==> Consistent(env, w.session.value, es))
  }

  /** A chain the anchor does not run ahead of passes the reopen pipeline. */
  lemma InvReopens(env: Env, w: World, es: seq<SignedEntry>, lag: Option<nat>, rows: seq<Row>)
    requires Inv(env, w, es, lag) && IsScan(w.disk, AUDIT_KEY_PREFIX, rows)
    ensures Recovered(env.c, env.key, env.x, w.disk, rows) == Ok(es)
  {
    if es != [] { assert Intact(env.c, env.key, es, |es| - 1); }
    OpensExactly(env.c, env.key, env.x, w.disk, rows, es);
  }

  lemma AppenderKeeps(env: Env, s: Session, es: seq<SignedEntry>, ev: Event)
    requires Consistent(env, s, es) && AppenderStep(env, s, ev).Some?
    ensures Consistent(env, AppenderStep(env, s, ev).value, es)
  {
    var s' := AppenderStep(env, s, ev).value;
    if ev.Chain? {
      AppendKeepsAcceptance(env.c, env.key, s.chain, ev.event, ev.now);
      if s'.chain != s.chain {
        assert Pending(s') == Pending(s) + [s'.appender.e];
      }
    } else if ev.Send? && s'.appender.Outside? {
      assert Pending(s') == Pending(s);
    } else if ev.Send? {
      assert s.healthy && !s.drain.Stopped? ==> s.chain[..|s.chain| - 1] == es + Pending(s');
    }
  }

  lemma NextInChain(env: Env, chain: seq<SignedEntry>, es: seq<SignedEntry>, e: SignedEntry)
    requires Accepts(env.c, env.key, chain) && es + [e] <= chain
    ensures e.seqNo == |es| && Accepts(env.c, env.key, es + [e])
  {
    assert e == (es + [e])[|es|] == chain[|es|] && Intact(env.c, env.key, chain, |es|);
    hide Intact;
    assert chain[..|es| + 1] == es + [e];
    PrefixAccepted(env.c, env.key, chain, |es| + 1);
  }

  lemma LastSeq(env: Env, es: seq<SignedEntry>)
    requires Accepts(env.c, env.key, es) && es != []
    ensures es[|es| - 1].seqNo == |es| - 1
  {
    assert Intact(env.c, env.key, es, |es| - 1);
  }

  lemma RowLands(env: Env, chain: seq<SignedEntry>, disk: Table, es: seq<SignedEntry>, lag: Option<nat>, e: SignedEntry, value: seq<Byte>)
    requires Faithful(env.x) && Inv(env, World(None, disk), es, lag)
    requires Accepts(env.c, env.key, chain) && |chain| <= TWO_64
    requires es + [e] <= chain && env.x.encEntry(e) == Some(value)
    ensures Inv(env, World(None, DiskAfter(env, disk, RowWritten(e, value))), es + [e],
                if lag.Some? then Some(lag.value + 1) else None)
  {
    assert env.x.decEntry(value) == Some(e);
    hide Accepts, Holds, AuditKey, ReadAnchor, Faithful;
    NextInChain(env, chain, es, e);
    RowPutHolds(env.x, disk, es, e, value);
  }

  lemma AnchorLands(env: Env, disk: Table, es: seq<SignedEntry>, lag: Option<nat>)
    requires Faithful(env.x) && Inv(env, World(None, disk), es, lag) && es != [] && |es| <= TWO_64
    ensures Inv(env, World(None, DiskAfter(env, disk, AnchorWritten(es[|es| - 1]))), es, Some(0))
  {
    hide Accepts, Holds, ReadAnchor, Faithful;
    var e := es[|es| - 1];
    LastSeq(env, es);
    AnchorPutHolds(env.x, disk, es, env.x.encAnchor(ChainAnchor(e.seqNo, e.mac)));
    AnchorReadBack(env.x, disk, ChainAnchor(e.seqNo, e.mac));
  }

  lemma AnchorReadBack(x: Codec, disk: Table, a: ChainAnchor)
    requires Faithful(x)
    ensures ReadAnchor(x, disk[CHAIN_ANCHOR_KEY := x.encAnchor(a)]) == Ok(Some(a))
  {
  }

  lemma LandingKeeps(env: Env, w: World, es: seq<SignedEntry>, lag: Option<nat>, write: Write)
    requires Faithful(env.x) && Inv(env, w, es, lag) && w.session.Some?
    requires write.RowWritten? ==> w.session.value.drain == PuttingRow(write.e, write.value)
    requires write.AnchorWritten? ==> w.session.value.drain == PuttingAnchor(write.e)
    ensures var es' := if write.RowWritten? then es + [write.e] else es;
            var lag' := if write.AnchorWritten? then Some(0) else if write.RowWritten? && lag.Some? then Some(lag.value + 1) else lag;
            Inv(env, World(None, DiskAfter(env, w.disk, write)), es', lag')
  {
    hide Accepts, Holds, AnchorLags, DiskAfter, NothingLost;
    match write
    case NoWrite => assert DiskAfter(env, w.disk, write) == w.disk by { LandsNothing(env, w.disk); }
    case RowWritten(e, value) => RowLands(env, w.session.value.chain, w.disk, es, lag, e, value);
    case AnchorWritten(e) => AnchorLands(env, w.disk, es, lag);
  }

  lemma LandsNothing(env: Env, disk: Table)
    ensures DiskAfter(env, disk, NoWrite) == disk
  {
  }

  lemma DrainKeeps(env: Env, w: World, es: seq<SignedEntry>, ev: Event)
    requires w.session.Some? && Consistent(env, w.session.value, es)
    requires DrainStep(env, w.session.value, ev).Some?
    ensures var write := Landing(w, ev);
            Consistent(env, DrainStep(env, w.session.value, ev).value, if write.RowWritten? then es + [write.e] else es)
  {
    var s := w.session.value;
    var s' := DrainStep(env, s, ev).value;
    hide Accepts;
    match ev
    case Take =>
      assert s.channel == [s.channel[0]] + s.channel[1..];
      assert Pending(s') == Pending(s);
    case Begin =>
      if s.healthy { FirstPending(s, es); }
    case RowPut(o) =>
      FirstPending(s, es);
      assert o.Done? ==> Pending(s') == s.channel + InHand(s.appender);
    case AnchorPut(_) =>
      assert Pending(s') == Pending(s) || s'.drain.Stopped?;
    case _ =>
  }

  lemma FirstPending(s: Session, es: seq<SignedEntry>)
    requires s.drain.Taken? || s.drain.PuttingRow?
    ensures Pending(s) == [s.drain.e] + (s.channel + InHand(s.appender))
    ensures es + [s.drain.e] + (s.channel + InHand(s.appender)) == es + Pending(s)
  {
  }
}
