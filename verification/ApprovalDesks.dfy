/**
  Chat approvals: asks that wait for an answer, a timeout, a cancel or a
  disconnect, in any interleaving, over one map of open prompts.
*/
module ApprovalDesks {

  type RequestId = string

  datatype Approval = Approved | Denied | TimedOut

  datatype Phase = Sending | Waiting | Leaving(answer: Approval) | Returned(answer: Approval)

  /** `waiting` is the map of open prompts, `sent` what went into each one-shot channel, `asks` where each ask stands. */
  datatype Desk = Desk(waiting: set<RequestId>, sent: map<RequestId, bool>, asks: map<RequestId, Phase>)

  const EMPTY := Desk({}, map[], map[])

  datatype Event =
    | Ask(id: RequestId)
    | Sent(id: RequestId, ok: bool)
    | Resolve(id: RequestId, approved: bool)
    | DenyAll
    | Receive(id: RequestId)
    | Timeout(id: RequestId)
    | Cancel(id: RequestId)
    | Return(id: RequestId)

  /** Request ids are fresh; an ask selects among answer, timeout and cancel only while it waits. */
  predicate Possible(d: Desk, ev: Event) {
    match ev
    case Ask(id) => id !in d.asks
    case Sent(id, _) => id in d.asks && d.asks[id] == Sending
    case Resolve(_, _) => true
    case DenyAll => true
    case Receive(id) => id in d.asks && d.asks[id] == Waiting && id in d.sent
    case Timeout(id) => id in d.asks && d.asks[id] == Waiting
    case Cancel(id) => id in d.asks && d.asks[id] == Waiting
    case Return(id) => id in d.asks && d.asks[id].Leaving?
  }

  function Step(d: Desk, ev: Event): Desk
    requires Possible(d, ev)
  {
    match ev
    case Ask(id) => d.(waiting := d.waiting + {id}, asks := d.asks[id := Sending])
    case Sent(id, ok) => d.(asks := d.asks[id := if ok then Waiting else Leaving(Denied)])
    case Resolve(id, approved) =>
      if id in d.waiting then d.(waiting := d.waiting - {id}, sent := d.sent[id := approved]) else d
    case DenyAll =>
      d.(waiting := {}, sent := map id | id in d.sent.Keys + d.waiting :: if id in d.waiting then false else d.sent[id])
    case Receive(id) => d.(asks := d.asks[id := Leaving(if d.sent[id] then Approved else Denied)])
    case Timeout(id) => d.(asks := d.asks[id := Leaving(TimedOut)])
    case Cancel(id) => d.(asks := d.asks[id := Leaving(Denied)])
    case Return(id) => d.(waiting := d.waiting - {id}, asks := d.asks[id := Returned(d.asks[id].answer)])
  }

  class ApprovalDesk {
    var waiting: set<RequestId>
    var sent: map<RequestId, bool>
    var asks: map<RequestId, Phase>

    function State(): Desk
      reads this
    {
      Desk(waiting, sent, asks)
    }

    constructor ()
      ensures State() == EMPTY
    {
      waiting, sent, asks := {}, map[], map[];
    }

    /** The ask registers before it sends. */
    method Open(id: RequestId)
      requires Possible(State(), Ask(id))
      modifies this
      ensures State() == Step(old(State()), Ask(id))
    {
      waiting := waiting + {id};
      asks := asks[id := Sending];
    }

    /** It closes its entry whatever the answer was. */
    method Close(id: RequestId) returns (answer: Approval)
      requires Possible(State(), Return(id))
      modifies this
      ensures State() == Step(old(State()), Return(id)) && asks[id] == Returned(answer)
    {
      waiting := waiting - {id};
      answer := asks[id].answer;
      asks := asks[id := Returned(answer)];
    }

    method ResolveOne(id: RequestId, approved: bool)
      modifies this
      ensures State() == Step(old(State()), Resolve(id, approved))
    {
      if id in waiting {
        waiting := waiting - {id};
        sent := sent[id := approved];
      }
    }

    method DenyEach()
      modifies this
      ensures State() == Step(old(State()), DenyAll)
    {
      ghost var open := waiting;
      while waiting != {}
        invariant asks == old(asks) && waiting <= open == old(waiting)
        invariant sent.Keys == old(sent).Keys + (open - waiting)
        invariant forall id :: id in sent ==> sent[id] == if id in open && id !in waiting then false else old(sent)[id]
        decreases waiting
      {
        var id :| id in waiting;
        waiting := waiting - {id};
        sent := sent[id := false];
      }
    }
  }

  // ---- Runs ----

  predicate Run(evs: seq<Event>)
    decreases |evs|, 0
  {
    evs == [] || (Run(evs[..|evs| - 1]) && Possible(After(evs[..|evs| - 1]), evs[|evs| - 1]))
  }

  function After(evs: seq<Event>): Desk
    requires Run(evs)
    decreases |evs|, 1
  {
    if evs == [] then EMPTY else Step(After(evs[..|evs| - 1]), evs[|evs| - 1])
  }

  ghost predicate Consistent(d: Desk) {
    && d.waiting <= d.asks.Keys && d.sent.Keys <= d.asks.Keys && d.waiting !! d.sent.Keys
    && (forall id :: id in d.asks && d.asks[id].Returned? ==> id !in d.waiting)
    && (forall id :: id in d.asks && !d.asks[id].Returned? ==> id in d.waiting || id in d.sent)
    && (forall id :: id in d.asks && (d.asks[id] == Leaving(Approved) || d.asks[id] == Returned(Approved)) ==>
          id in d.sent && d.sent[id])
  }

  lemma StepKeepsConsistent(d: Desk, ev: Event)
    requires Consistent(d) && Possible(d, ev)
    ensures Consistent(Step(d, ev))
  {
  }

  lemma {:induction false} RunsAreConsistent(evs: seq<Event>)
    requires Run(evs)
    ensures Consistent(After(evs))
  {
    hide Consistent, Step;
    if evs == [] {
      EmptyIsConsistent();
    } else {
      RunsAreConsistent(evs[..|evs| - 1]);
      StepKeepsConsistent(After(evs[..|evs| - 1]), evs[|evs| - 1]);
    }
  }

  lemma EmptyIsConsistent()
    ensures Consistent(EMPTY)
  {
  }

  lemma {:induction false} PrefixRuns(evs: seq<Event>, k: nat)
    requires Run(evs) && k <= |evs|
    ensures Run(evs[..k])
  {
    if k == |evs| {
      assert evs[..k] == evs;
    } else {
      PrefixRuns(evs[..|evs| - 1], k);
      assert evs[..|evs| - 1][..k] == evs[..k];
    }
  }

  /** Event `k` takes the open entry of `id` and answers it. */
  ghost predicate Answers(evs: seq<Event>, k: nat, id: RequestId, approved: bool)
    requires Run(evs) && k < |evs|
  {
    PrefixRuns(evs, k);
    && id in After(evs[..k]).waiting
    && (evs[k] == Resolve(id, approved) || (evs[k] == DenyAll && !approved))
  }

  lemma StepSends(d: Desk, ev: Event, id: RequestId, approved: bool)
    requires Consistent(d) && Possible(d, ev)
    ensures id in Step(d, ev).sent && Step(d, ev).sent[id] == approved <==>
      || (id in d.sent && d.sent[id] == approved)
      || (id in d.waiting && (ev == Resolve(id, approved) || (ev == DenyAll && !approved)))
  {
  }

  /** A one-shot channel holds a value exactly when some event answered its open prompt with it. */
  lemma {:induction false} SentWasAnswered(evs: seq<Event>, id: RequestId, approved: bool)
    requires Run(evs)
    ensures id in After(evs).sent && After(evs).sent[id] == approved <==>
      exists k: nat :: k < |evs| && Answers(evs, k, id, approved)
  {
    if evs != [] {
      var n := |evs| - 1;
      var d := After(evs[..n]);
      SentWasAnswered(evs[..n], id, approved);
      RunsAreConsistent(evs[..n]);
      StepSends(d, evs[n], id, approved);
      AnswersOfPrefix(evs, n, id, approved);
      assert Answers(evs, n, id, approved) <==>
        id in d.waiting && (evs[n] == Resolve(id, approved) || (evs[n] == DenyAll && !approved));
      hide Answers, Step, Consistent;
    }
  }

  lemma AnswersOfPrefix(evs: seq<Event>, n: nat, id: RequestId, approved: bool)
    requires Run(evs) && n <= |evs|
    ensures Run(evs[..n])
    ensures forall k: nat :: k < n ==> (Answers(evs[..n], k, id, approved) <==> Answers(evs, k, id, approved))
  {
    PrefixRuns(evs, n);
    forall k: nat | k < n ensures Answers(evs[..n], k, id, approved) <==> Answers(evs, k, id, approved) {
      assert evs[..n][..k] == evs[..k];
    }
  }

  /** `Approved` comes only from a resolve that said yes and took the entry while it was open. */
  lemma {:induction false} ApprovedWasResolved(evs: seq<Event>, id: RequestId)
    requires Run(evs) && id in After(evs).asks && After(evs).asks[id] == Returned(Approved)
    ensures exists k: nat :: k < |evs| && evs[k] == Resolve(id, true) && Answers(evs, k, id, true)
  {
    RunsAreConsistent(evs);
    SentWasAnswered(evs, id, true);
    var k: nat :| k < |evs| && Answers(evs, k, id, true);
    assert evs[k] == Resolve(id, true);
  }

  lemma {:induction false} SentStays(evs: seq<Event>, k: nat, id: RequestId)
    requires Run(evs) && k <= |evs|
    ensures Run(evs[..k])
    ensures id in After(evs[..k]).sent ==> id in After(evs).sent && After(evs).sent[id] == After(evs[..k]).sent[id]
  {
    PrefixRuns(evs, k);
    if k == |evs| {
      assert evs[..k] == evs;
    } else {
      SentStays(evs[..|evs| - 1], k, id);
      assert evs[..|evs| - 1][..k] == evs[..k];
      RunsAreConsistent(evs[..|evs| - 1]);
    }
  }

  /** A prompt is answered at most once. */
  lemma AnsweredOnce(evs: seq<Event>, i: nat, j: nat, id: RequestId, a: bool, b: bool)
    requires Run(evs) && i < j < |evs| && Answers(evs, i, id, a)
    ensures !Answers(evs, j, id, b)
  {
    PrefixRuns(evs, i + 1);
    PrefixRuns(evs, j);
    assert evs[..i + 1][..i] == evs[..i];
    assert evs[..j][..i + 1] == evs[..i + 1];
    assert id in After(evs[..i + 1]).sent;
    SentStays(evs[..j], i + 1, id);
    RunsAreConsistent(evs[..j]);
  }

  /** Once an ask has returned its id is out of the map, and a late resolve changes nothing. */
  lemma ReturnedIsClosed(evs: seq<Event>, id: RequestId, approved: bool)
    requires Run(evs) && id in After(evs).asks && After(evs).asks[id].Returned?
    ensures id !in After(evs).waiting && Step(After(evs), Resolve(id, approved)) == After(evs)
  {
    RunsAreConsistent(evs);
  }

  /** Nothing but an answer ended the ask. */
  predicate Undisturbed(evs: seq<Event>, id: RequestId) {
    Sent(id, false) !in evs && Timeout(id) !in evs && Cancel(id) !in evs
  }

  /** An ask that is leaving or gone does so with what its channel held. */
  predicate LeavesWithAnswer(d: Desk, id: RequestId) {
    id in d.asks && (d.asks[id].Leaving? || d.asks[id].Returned?) ==>
      id in d.sent && d.asks[id].answer == if d.sent[id] then Approved else Denied
  }

  lemma UndisturbedStep(d: Desk, ev: Event, id: RequestId)
    requires Consistent(d) && LeavesWithAnswer(d, id) && Possible(d, ev)
    requires ev != Sent(id, false) && ev != Timeout(id) && ev != Cancel(id)
    ensures LeavesWithAnswer(Step(d, ev), id)
  {
  }

  lemma {:induction false} UndisturbedAnswer(evs: seq<Event>, id: RequestId)
    requires Run(evs) && Undisturbed(evs, id)
    ensures LeavesWithAnswer(After(evs), id)
  {
    if evs != [] {
      var n := |evs| - 1;
      UndisturbedAnswer(evs[..n], id);
      RunsAreConsistent(evs[..n]);
      assert evs[n] in evs;
      hide Consistent, LeavesWithAnswer, Step;
      UndisturbedStep(After(evs[..n]), evs[n], id);
    }
  }

  /** Without a timeout, cancel or failed send, an ask returns `Approved` exactly when its open prompt was resolved with yes. */
  lemma {:induction false} UndisturbedIsApprovedIff(evs: seq<Event>, id: RequestId)
    requires Run(evs) && Undisturbed(evs, id) && id in After(evs).asks && After(evs).asks[id].Returned?
    ensures After(evs).asks[id].answer == Approved <==>
      exists k: nat :: k < |evs| && evs[k] == Resolve(id, true) && Answers(evs, k, id, true)
  {
    UndisturbedAnswer(evs, id);
    SentWasAnswered(evs, id, true);
    forall k: nat | k < |evs| && Answers(evs, k, id, true) ensures evs[k] == Resolve(id, true) {}
  }

  // ---- What each answer means ----

  /** The events that make a waiting ask leave, and with what. */
  predicate Leaves(ev: Event, id: RequestId) {
    ev == Timeout(id) || ev == Cancel(id) || ev == Sent(id, false) || ev == Receive(id)
  }

  /** An ask has left exactly when one such event happened to it, and the answer is that event's. */
  ghost predicate LeftBy(evs: seq<Event>, d: Desk, id: RequestId) {
    if id in d.asks && (d.asks[id].Leaving? || d.asks[id].Returned?) then
      && (d.asks[id].answer == TimedOut <==> Timeout(id) in evs)
      && (Cancel(id) in evs || Sent(id, false) in evs ==> d.asks[id].answer == Denied)
      && (Receive(id) in evs ==> id in d.sent && d.asks[id].answer == if d.sent[id] then Approved else Denied)
      && (Timeout(id) in evs || Cancel(id) in evs || Sent(id, false) in evs || Receive(id) in evs)
    else
      Timeout(id) !in evs && Cancel(id) !in evs && Sent(id, false) !in evs && Receive(id) !in evs
  }

  lemma LeftByStep(evs: seq<Event>, d: Desk, ev: Event, id: RequestId)
    requires Consistent(d) && LeftBy(evs, d, id) && Possible(d, ev)
    ensures LeftBy(evs + [ev], Step(d, ev), id)
  {
    forall e: Event ensures e in evs + [ev] <==> e in evs || e == ev {}
    if !Leaves(ev, id) {
      assert Timeout(id) != ev && Cancel(id) != ev && Sent(id, false) != ev && Receive(id) != ev;
    }
  }

  lemma {:induction false} LeftByRun(evs: seq<Event>, id: RequestId)
    requires Run(evs)
    ensures LeftBy(evs, After(evs), id)
  {
    if evs != [] {
      var n := |evs| - 1;
      LeftByRun(evs[..n], id);
      RunsAreConsistent(evs[..n]);
      LeftByStep(evs[..n], After(evs[..n]), evs[n], id);
      assert evs == evs[..n] + [evs[n]];
      hide LeftBy, Consistent, Step;
    }
  }

  /**
    Every answer an ask returns with says how it ended: `TimedOut` if and only
    if its timeout fired; `Denied` if it was cancelled or could not be sent, and
    otherwise only if its prompt was answered with no.
  */
  lemma ReturnedSaysHow(evs: seq<Event>, id: RequestId)
    requires Run(evs) && id in After(evs).asks && After(evs).asks[id].Returned?
    ensures After(evs).asks[id].answer == TimedOut <==> Timeout(id) in evs
    ensures Cancel(id) in evs || Sent(id, false) in evs ==> After(evs).asks[id].answer == Denied
    ensures After(evs).asks[id].answer == Denied ==>
              Cancel(id) in evs || Sent(id, false) in evs || exists k: nat :: k < |evs| && Answers(evs, k, id, false)
  {
    LeftByRun(evs, id);
    SentWasAnswered(evs, id, false);
  }
}
