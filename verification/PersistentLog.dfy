/**
  The durable audit hook as an object: `append` on the calling side, one turn
  of the drain loop on the other. Each method is shown to take exactly the
  protocol's steps, so every run of the object is a run of the protocol.
*/
module PersistentLog {
  import opened Wrappers
  import opened Bytes
  import opened HmacChain
  import opened AuditStore
  import opened AuditProtocol

  /** `evs` leads from `w` to `w'`, step by step. */
  ghost predicate Follows(env: Env, w: World, evs: seq<Event>, w': World)
    decreases |evs|
  {
    if evs == [] then w == w'
    else Step(env, w, evs[0]).Some? && Follows(env, Step(env, w, evs[0]).value, evs[1..], w')
  }

  lemma {:induction false} FollowsExtendsRun(env: Env, run: seq<Event>, evs: seq<Event>, w': World)
    requires Possible(env, run) && Follows(env, Exec(env, run).value, evs, w')
    ensures Possible(env, run + evs) && Exec(env, run + evs) == Some(w')
    decreases |evs|
  {
    hide Step;
    if evs == [] {
      assert run + evs == run;
    } else {
      assert (run + [evs[0]])[..|run + [evs[0]]| - 1] == run;
      FollowsExtendsRun(env, run + [evs[0]], evs[1..], w');
      assert run + [evs[0]] + evs[1..] == run + evs;
    }
  }

  lemma FollowsStep(env: Env, w: World, ev: Event, w1: World, evs: seq<Event>, w': World)
    requires Step(env, w, ev) == Some(w1) && Follows(env, w1, evs, w')
    ensures Follows(env, w, [ev] + evs, w')
  {
    assert ([ev] + evs)[1..] == evs;
  }

  lemma TwoSteps(env: Env, w: World, a: Event, w1: World, b: Event, w2: World)
    requires Step(env, w, a) == Some(w1) && Step(env, w1, b) == Some(w2)
    ensures Follows(env, w, [a, b], w2)
  {
    FollowsStep(env, w1, b, w2, [], w2);
    FollowsStep(env, w, a, w1, [b], w2);
  }

  lemma ThreeSteps(env: Env, w: World, a: Event, w1: World, b: Event, w2: World, c: Event, w3: World)
    requires Step(env, w, a) == Some(w1) && Step(env, w1, b) == Some(w2) && Step(env, w2, c) == Some(w3)
    ensures Follows(env, w, [a, b, c], w3)
  {
    TwoSteps(env, w1, b, w2, c, w3);
    FollowsStep(env, w, a, w1, [b, c], w3);
  }

  lemma FourSteps(env: Env, w: World, a: Event, w1: World, b: Event, w2: World, c: Event, w3: World, d: Event, w4: World)
    requires Step(env, w, a) == Some(w1) && Step(env, w1, b) == Some(w2)
    requires Step(env, w2, c) == Some(w3) && Step(env, w3, d) == Some(w4)
    ensures Follows(env, w, [a, b, c, d], w4)
  {
    ThreeSteps(env, w1, b, w2, c, w3, d, w4);
    FollowsStep(env, w, a, w1, [b, c, d], w4);
  }

  /** The steps of one whole `append` with nothing interleaved. */
  function AppendScript(env: Env, s: Session, event: AuditEvent, now: int): seq<Event> {
    if NextEntry(env.c, env.key, s.chain, event, now).None? then [Chain(event, now)]
    else if !s.healthy then [Chain(event, now), CheckHealth]
    else if s.drain.Stopped? || |s.channel| >= CHANNEL_CAPACITY then [Chain(event, now), CheckHealth, Send, FlipHealth]
    else [Chain(event, now), CheckHealth, Send]
  }

  /** The steps of one turn of the drain loop, given how its puts come out. */
  function DrainScript(env: Env, s: Session, row: PutOutcome, anchor: PutOutcome): seq<Event>
    requires s.channel != []
  {
    if !s.healthy || env.x.encEntry(s.channel[0]).None? then [Take, Begin]
    else if row.Done? then [Take, Begin, RowPut(row), AnchorPut(anchor)]
    else [Take, Begin, RowPut(row)]
  }

  /** Where one turn of the drain loop leads. */
  function AfterDrain(env: Env, s: Session, disk: Table, row: PutOutcome, anchor: PutOutcome): World
    requires s.channel != []
  {
    var e, s1 := s.channel[0], s.(channel := s.channel[1..]);
    if !s.healthy then World(Some(s1), disk)
    else match env.x.encEntry(e)
      case None => World(Some(MarkUnhealthy(s1, EncodeFailed(e.seqNo))), disk)
      case Some(value) =>
        var disk1 := if row.Landed() then disk[AuditKey(e.seqNo) := value] else disk;
        match row
        case Cancelled(_) => World(Some(s1.(drain := Stopped, channel := [])), disk1)
        case Failed(_) => World(Some(MarkUnhealthy(s1, PutFailed(e.seqNo))), disk1)
        case Done =>
          var mark := env.x.encAnchor(ChainAnchor(e.seqNo, e.mac));
          var disk2 := if anchor.Landed() then disk1[CHAIN_ANCHOR_KEY := mark] else disk1;
          World(Some(if anchor.Cancelled? then s1.(drain := Stopped, channel := []) else s1), disk2)
  }

  lemma DrainTakesItsSteps(env: Env, s: Session, disk: Table, row: PutOutcome, anchor: PutOutcome)
    requires s.channel != [] && s.drain.Waiting? && s.appender.Outside?
    ensures Follows(env, World(Some(s), disk), DrainScript(env, s, row, anchor), AfterDrain(env, s, disk, row, anchor))
  {
    var w, w' := World(Some(s), disk), AfterDrain(env, s, disk, row, anchor);
    var e, s1 := s.channel[0], s.(channel := s.channel[1..]);
    var w1 := World(Some(s1.(drain := Taken(e))), disk);
    if !s.healthy || env.x.encEntry(e).None? {
      TwoSteps(env, w, Take, w1, Begin, w');
    } else {
      var value := env.x.encEntry(e).value;
      var w2 := World(Some(s1.(drain := PuttingRow(e, value))), disk);
      var w3 := Step(env, w2, RowPut(row)).value;
      if row.Done? {
        FourSteps(env, w, Take, w1, Begin, w2, RowPut(row), w3, AnchorPut(anchor), w');
      } else {
        ThreeSteps(env, w, Take, w1, Begin, w2, RowPut(row), w');
      }
    }
  }

  class PersistentAuditLog {
    const env: Env
    const chain: HmacChainLog
    var channel: seq<SignedEntry>
    var healthy: bool
    var firstError: Option<Fault>
    var receiverGone: bool
    var disk: Table
    /** How often the error handler has been called. */
    var reports: nat

    ghost predicate Valid() {
      chain.c == env.c && chain.key == env.key
    }

    ghost function View(): World
      reads this, chain
    {
      World(Some(Session(chain.entries, Outside, channel, healthy, firstError, if receiverGone then Stopped else Waiting)), disk)
    }

    constructor (env: Env, chain: HmacChainLog, disk: Table)
      requires chain.c == env.c && chain.key == env.key
      ensures Valid() && this.env == env && this.chain == chain
      ensures View() == World(Some(NewSession(chain.entries)), disk) && reports == 0
    {
      this.env, this.chain, this.disk := env, chain, disk;
      channel, healthy, firstError, receiverGone, reports := [], true, None, false, 0;
    }

    method FailWith(fault: Fault)
      modifies this
      ensures !healthy && firstError == if old(firstError).Some? then old(firstError) else Some(fault)
      ensures channel == old(channel) && receiverGone == old(receiverGone) && disk == old(disk) && reports == old(reports) + 1
    {
      healthy := false;
      if firstError.None? {
        firstError := Some(fault);
      }
      reports := reports + 1;
    }

    /** Chain, then hand to the drain task. The entry's seq is returned even when the handler had to be called. */
    method Append(event: AuditEvent, now: int) returns (r: Result<nat, AuditError>)
      requires Valid() && |chain.entries| < TWO_64
      modifies this, chain
      ensures Valid()
      ensures Follows(env, old(View()), AppendScript(env, old(View()).session.value, event, now), View())
      ensures r == if env.c.canon(event).None? then Err(Serialize) else Ok(|old(chain.entries)|)
      ensures reports == old(reports) + (if r.Ok? && (!old(healthy) || !healthy) then 1 else 0)
    {
      ghost var w := View();
      var chained := chain.Append(event, now);
      ghost var w1 := Step(env, w, Chain(event, now)).value;
      if chained.Err? {
        return chained;
      }
      ghost var w2 := Step(env, w1, CheckHealth).value;
      if !healthy {
        reports := reports + 1;
        TwoSteps(env, w, Chain(event, now), w1, CheckHealth, w2);
        return chained;
      }
      var entry := chain.entries[chained.value];
      ghost var w3 := Step(env, w2, Send).value;
      if receiverGone || |channel| >= CHANNEL_CAPACITY {
        FailWith(SendFailed);
        FourSteps(env, w, Chain(event, now), w1, CheckHealth, w2, Send, w3, FlipHealth, View());
      } else {
        channel := channel + [entry];
        ThreeSteps(env, w, Chain(event, now), w1, CheckHealth, w2, Send, View());
      }
      return chained;
    }

    /** One turn of the drain loop: the row first, and only after it the anchor. */
    method DrainNext(row: PutOutcome, anchor: PutOutcome)
      requires Valid() && !receiverGone && channel != []
      modifies this
      ensures Valid()
      ensures Follows(env, old(View()), DrainScript(env, old(View()).session.value, row, anchor), View())
      ensures reports == old(reports)
        + if old(healthy) && (env.x.encEntry(old(channel)[0]).None? || row.Failed? || (row.Done? && anchor.Failed?)) then 1 else 0
    {
      DrainTakesItsSteps(env, View().session.value, disk, row, anchor);
      var e := channel[0];
      channel := channel[1..];
      if !healthy {
        return;
      }
      var value := env.x.encEntry(e);
      if value.None? {
        FailWith(EncodeFailed(e.seqNo));
        return;
      }
      if row.Landed() {
        disk := disk[AuditKey(e.seqNo) := value.value];
      }
      if row.Cancelled? {
        receiverGone, channel := true, [];
        return;
      }
      if row.Failed? {
        FailWith(PutFailed(e.seqNo));
        return;
      }
      if anchor.Landed() {
        disk := disk[CHAIN_ANCHOR_KEY := env.x.encAnchor(ChainAnchor(e.seqNo, e.mac))];
      }
      if anchor.Cancelled? {
        receiverGone, channel := true, [];
      } else if anchor.Failed? {
        reports := reports + 1;
      }
    }
  }
}
