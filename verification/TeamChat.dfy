/**
  The `/team` chain of one chat: a request to start a mission waits for its own
  sender's yes or no, and requests are limited over a rolling hour.
*/
module TeamChat {
  import opened Wrappers

  /** Instants, in nanoseconds. */
  type Instant = int

  const PENDING_TRIGGER_TTL: int := 300 * 1_000_000_000
  const WINDOW: int := 3600 * 1_000_000_000

  type Sender = string

  datatype TeamCommand = Run(goal: string) | OtherCommand

  datatype ConfirmReply = Yes | No

  datatype PendingTrigger = PendingTrigger(goal: string, createdAt: Instant, sender: Sender)

  /** One message: how its text reads as a command and as a reply, who sent it, the clock, and the channel's settings. */
  datatype Call = Call(
    command: Option<TeamCommand>, reply: Option<ConfirmReply>, sender: Sender,
    repliedAt: Instant, limitedAt: Instant, createdAt: Instant,
    channelOpen: bool, rateLimit: Option<nat>, allowed: set<Sender>)

  datatype Outcome =
    | NotAuthorized
    | Expired
    | Started(goal: string)
    | Cancelled
    | ChannelClosed
    | TooMany(limit: nat)
    | Asked(goal: string)
    | Dispatched
    | NotForTheTeam

  function DurationSince(now: Instant, then_: Instant): nat {
    if now < then_ then 0 else now - then_
  }

  predicate IsExpired(p: PendingTrigger, now: Instant) {
    DurationSince(now, p.createdAt) >= PENDING_TRIGGER_TTL
  }

  // ---- The rolling hour ----

  function Recent(history: seq<Instant>, now: Instant): seq<Instant> {
    if history == [] then []
    else
      var n := |history| - 1;
      Recent(history[..n], now) + if DurationSince(now, history[n]) < WINDOW then [history[n]] else []
  }

  function Admit(history: seq<Instant>, limit: nat, now: Instant): (bool, seq<Instant>) {
    var recent := Recent(history, now);
    if |recent| >= limit then (false, recent) else (true, recent + [now])
  }

  // ---- One message ----

  datatype State = State(pending: Option<PendingTrigger>, history: seq<Instant>)

  const FRESH := State(None, [])

  /** What the pending request makes of a message: an outcome, or what stays pending. */
  function Confirm(pending: Option<PendingTrigger>, c: Call): (Option<Outcome>, Option<PendingTrigger>) {
    match pending
    case None => (None, None)
    case Some(p) =>
      if c.reply.None? || p.sender != c.sender then
        (None, if IsExpired(p, c.repliedAt) then None else Some(p))
      else if c.reply.value == No then (Some(Cancelled), None)
      else if IsExpired(p, c.repliedAt) then (Some(Expired), None)
      else (Some(Started(p.goal)), None)
  }

  function Handle(s: State, c: Call): (Outcome, State) {
    if c.command.Some? && c.sender !in c.allowed then (NotAuthorized, s)
    else
      var (done, pending) := Confirm(s.pending, c);
      if done.Some? then (done.value, s.(pending := pending))
      else if c.command.None? then (NotForTheTeam, s.(pending := pending))
      else if c.command.value.OtherCommand? then (Dispatched, s.(pending := pending))
      else if !c.channelOpen then (ChannelClosed, s.(pending := pending))
      else if c.rateLimit.Some? && !Admit(s.history, c.rateLimit.value, c.limitedAt).0 then
        (TooMany(c.rateLimit.value), State(pending, Admit(s.history, c.rateLimit.value, c.limitedAt).1))
      else
        (Asked(c.command.value.goal),
         State(Some(PendingTrigger(c.command.value.goal, c.createdAt, c.sender)),
               if c.rateLimit.Some? then Admit(s.history, c.rateLimit.value, c.limitedAt).1 else s.history))
  }

  class TeamChat {
    var pending: Option<PendingTrigger>
    var history: seq<Instant>

    constructor ()
      ensures pending == None && history == []
    {
      pending, history := None, [];
    }

    method CheckAndRecordTrigger(limit: nat, now: Instant) returns (admitted: bool)
      modifies this`history
      ensures (admitted, history) == Admit(old(history), limit, now)
    {
      var kept: seq<Instant> := [];
      for i := 0 to |history|
        invariant history == old(history) && kept == Recent(history[..i], now)
      {
        assert history[..i + 1][..i] == history[..i];
        if DurationSince(now, history[i]) < WINDOW {
          kept := kept + [history[i]];
        }
      }
      assert history[..|history|] == history;
      history := kept;
      if |history| >= limit {
        return false;
      }
      history := history + [now];
      admitted := true;
    }

    method HandleTeamCommand(c: Call) returns (out: Outcome)
      modifies this
      ensures (out, State(pending, history)) == Handle(State(old(pending), old(history)), c)
    {
      if c.command.Some? && c.sender !in c.allowed {
        return NotAuthorized;
      }
      if pending.Some? {
        var p := pending.value;
        pending := None;
        if c.reply.Some? && p.sender != c.sender {
          if !IsExpired(p, c.repliedAt) {
            pending := Some(p);
          }
        } else if c.reply == Some(Yes) && IsExpired(p, c.repliedAt) {
          return Expired;
        } else if c.reply == Some(Yes) {
          return Started(p.goal);
        } else if c.reply == Some(No) {
          return Cancelled;
        } else if !IsExpired(p, c.repliedAt) {
          pending := Some(p);
        }
      }
      if c.command.Some? && c.command.value.Run? {
        if !c.channelOpen {
          return ChannelClosed;
        }
        if c.rateLimit.Some? {
          var admitted := CheckAndRecordTrigger(c.rateLimit.value, c.limitedAt);
          if !admitted {
            return TooMany(c.rateLimit.value);
          }
        }
        pending := Some(PendingTrigger(c.command.value.goal, c.createdAt, c.sender));
        return Asked(c.command.value.goal);
      }
      if c.command.Some? {
        return Dispatched;
      }
      out := NotForTheTeam;
    }
  }

  /** A message that is no new request, from someone who does not answer the pending one, leaves it as it is until five minutes are over. */
  lemma OthersLeaveIt(s: State, c: Call, p: PendingTrigger)
    requires s.pending == Some(p) && (c.command.Some? ==> c.command == Some(OtherCommand) && c.sender in c.allowed)
    requires c.sender != p.sender || c.reply.None?
    ensures Handle(s, c)
         == (if c.command.Some? then Dispatched else NotForTheTeam,
             if c.repliedAt - p.createdAt < 300_000_000_000 then s else s.(pending := None))
  {
  }

  /** The sender's own reply settles it: a no always, a yes by starting the mission if it comes in five minutes. */
  lemma OwnReplySettlesIt(s: State, c: Call, p: PendingTrigger)
    requires s.pending == Some(p) && (c.command.Some? ==> c.sender in c.allowed)
    requires c.sender == p.sender && c.reply.Some?
    ensures Handle(s, c)
         == (if c.reply == Some(No) then Cancelled
             else if c.repliedAt - p.createdAt < 300_000_000_000 then Started(p.goal)
             else Expired,
             s.(pending := None))
  {
  }

  /** A command from someone not allowed changes nothing; a request on a closed channel is turned away uncounted. */
  lemma TurnedAwayUncounted(s: State, c: Call)
    requires c.command.Some?
    ensures c.sender !in c.allowed ==> Handle(s, c) == (NotAuthorized, s)
    ensures c.sender in c.allowed && c.command.value.Run? && !c.channelOpen && s.pending.None? ==> Handle(s, c) == (ChannelClosed, s)
  {
  }

  // ---- Runs ----

  function After(calls: seq<Call>): State {
    if calls == [] then FRESH else Handle(After(calls[..|calls| - 1]), calls[|calls| - 1]).1
  }

  function OutcomeAt(calls: seq<Call>, i: nat): Outcome
    requires i < |calls|
  {
    Handle(After(calls[..i]), calls[i]).0
  }

  lemma OutcomeOfPrefix(calls: seq<Call>, n: nat, i: nat)
    requires i < n <= |calls|
    ensures OutcomeAt(calls[..n], i) == OutcomeAt(calls, i)
  {
    assert calls[..n][..i] == calls[..i];
  }

  /** The outcomes that settle a pending request or put another in its place. */
  predicate Settles(o: Outcome) {
    o.Asked? || o.Started? || o.Cancelled? || o.Expired?
  }

  /** Message `i` made the request that is pending: it was admitted, and nothing has settled or replaced it since. */
  ghost predicate MadeRequest(calls: seq<Call>, i: nat, p: PendingTrigger)
    requires i < |calls|
  {
    var c := calls[i];
    && OutcomeAt(calls, i) == Asked(p.goal)
    && c.command == Some(Run(p.goal)) && c.sender == p.sender && c.createdAt == p.createdAt
    && c.sender in c.allowed && c.channelOpen
    && forall k: nat :: i < k < |calls| ==> !Settles(OutcomeAt(calls, k))
  }

  lemma {:induction false} PendingWasRequested(calls: seq<Call>)
    requires After(calls).pending.Some?
    ensures exists i: nat :: i < |calls| && MadeRequest(calls, i, After(calls).pending.value)
  {
    var n := |calls| - 1;
    var s, c := After(calls[..n]), calls[n];
    var p := After(calls).pending.value;
    if OutcomeAt(calls, n).Asked? {
      assert MadeRequest(calls, n, p);
    } else {
      assert s.pending == Some(p) && !Settles(OutcomeAt(calls, n));
      PendingWasRequested(calls[..n]);
      var i: nat :| i < n && MadeRequest(calls[..n], i, p);
      StillRequested(calls, i, p);
    }
  }

  lemma StillRequested(calls: seq<Call>, i: nat, p: PendingTrigger)
    requires calls != [] && i < |calls| - 1 && MadeRequest(calls[..|calls| - 1], i, p)
    requires !Settles(OutcomeAt(calls, |calls| - 1))
    ensures MadeRequest(calls, i, p)
  {
    var n := |calls| - 1;
    forall k: nat | k < n ensures OutcomeAt(calls[..n], k) == OutcomeAt(calls, k) {
      OutcomeOfPrefix(calls, n, k);
    }
    hide OutcomeAt;
  }

  /**
    A mission starts only on an unexpired yes from the sender of the pending
    request, with its goal; and that request was admitted, is the latest, and
    was not started, refused or found expired since.
  */
  lemma StartsAreConfirmed(calls: seq<Call>, j: nat)
    requires j < |calls| && OutcomeAt(calls, j).Started?
    ensures calls[j].reply == Some(Yes)
    ensures var pending := After(calls[..j]).pending;
      && pending.Some?
      && OutcomeAt(calls, j) == Started(pending.value.goal)
      && calls[j].sender == pending.value.sender
      && calls[j].repliedAt - pending.value.createdAt < 300_000_000_000
      && exists i: nat :: i < j && MadeRequest(calls[..j], i, pending.value)
  {
    PendingWasRequested(calls[..j]);
  }

  function Starts(calls: seq<Call>): nat {
    if calls == [] then 0
    else Starts(calls[..|calls| - 1]) + if OutcomeAt(calls, |calls| - 1).Started? then 1 else 0
  }

  function Requests(calls: seq<Call>): nat {
    if calls == [] then 0
    else Requests(calls[..|calls| - 1]) + if OutcomeAt(calls, |calls| - 1).Asked? then 1 else 0
  }

  /** Each admitted request starts at most one mission. */
  lemma {:induction false} StartsWithinRequests(calls: seq<Call>)
    ensures Starts(calls) + (if After(calls).pending.Some? then 1 else 0) <= Requests(calls)
  {
    if calls != [] { StartsWithinRequests(calls[..|calls| - 1]); }
  }

  // ---- The limit over runs ----

  function Admissions(calls: seq<Call>): seq<Instant> {
    if calls == [] then []
    else
      var n := |calls| - 1;
      Admissions(calls[..n]) + if OutcomeAt(calls, n).Asked? then [calls[n].limitedAt] else []
  }

  /** The clock never runs back, and every message meets the same limit. */
  ghost predicate Limited(calls: seq<Call>, limit: nat) {
    && (forall i :: 0 <= i < |calls| ==> calls[i].rateLimit == Some(limit))
    && (forall i, j :: 0 <= i <= j < |calls| ==> calls[i].limitedAt <= calls[j].limitedAt)
  }

  /** What the history forgot was an hour old by then, and what it holds is within the limit. */
  ghost predicate Remembers(admitted: seq<Instant>, history: seq<Instant>, now: Instant, limit: nat) {
    && |history| <= |admitted| && |history| <= limit
    && history == admitted[|admitted| - |history|..]
    && (forall i :: 0 <= i < |admitted| - |history| ==> now - admitted[i] >= WINDOW)
    && (forall i, j :: 0 <= i <= j < |admitted| ==> admitted[i] <= admitted[j] <= now)
  }

  lemma {:induction false} RecentIsSuffix(history: seq<Instant>, now: Instant)
    requires forall i, j :: 0 <= i <= j < |history| ==> history[i] <= history[j] <= now
    ensures var recent := Recent(history, now);
      && |recent| <= |history| && recent == history[|history| - |recent|..]
      && forall i :: 0 <= i < |history| - |recent| ==> now - history[i] >= WINDOW
  {
    if history != [] {
      var n := |history| - 1;
      RecentIsSuffix(history[..n], now);
      var before := Recent(history[..n], now);
      if DurationSince(now, history[n]) >= WINDOW {
        NoneRecent(history[..n], now);
      } else {
        assert before + [history[n]] == history[|history| - |before| - 1..];
      }
    }
  }

  lemma {:induction false} NoneRecent(history: seq<Instant>, now: Instant)
    requires forall i :: 0 <= i < |history| ==> DurationSince(now, history[i]) >= WINDOW
    ensures Recent(history, now) == []
  {
    if history != [] { NoneRecent(history[..|history| - 1], now); }
  }

  lemma LaterRemembers(admitted: seq<Instant>, history: seq<Instant>, was: Instant, now: Instant, limit: nat)
    requires Remembers(admitted, history, was, limit) && was <= now
    ensures Remembers(admitted, history, now, limit)
  {
  }

  lemma PrunedRemembers(admitted: seq<Instant>, history: seq<Instant>, now: Instant, limit: nat)
    requires Remembers(admitted, history, now, limit)
    ensures Remembers(admitted, Recent(history, now), now, limit)
  {
    var cut := |admitted| - |history|;
    assert forall i :: cut <= i < |admitted| ==> admitted[i] == history[i - cut];
    RecentIsSuffix(history, now);
    var recent := Recent(history, now);
    hide Recent;
    assert recent == admitted[|admitted| - |recent|..];
  }

  lemma PushedRemembers(admitted: seq<Instant>, history: seq<Instant>, now: Instant, limit: nat)
    requires Remembers(admitted, history, now, limit) && |history| < limit
    ensures Remembers(admitted + [now], history + [now], now, limit)
  {
    assert history + [now] == (admitted + [now])[|admitted| - |history|..];
  }

  lemma HandledRemembers(admitted: seq<Instant>, s: State, c: Call, limit: nat)
    requires Remembers(admitted, s.history, c.limitedAt, limit) && c.rateLimit == Some(limit)
    ensures var (out, after) := Handle(s, c);
      Remembers(admitted + if out.Asked? then [c.limitedAt] else [], after.history, c.limitedAt, limit)
  {
    PrunedRemembers(admitted, s.history, c.limitedAt, limit);
    var recent := Recent(s.history, c.limitedAt);
    assert admitted + [] == admitted;
    if |recent| < limit { PushedRemembers(admitted, recent, c.limitedAt, limit); }
    hide Remembers, Confirm;
  }

  lemma {:induction false} RunRemembers(calls: seq<Call>, limit: nat, now: Instant)
    requires Limited(calls, limit) && (calls != [] ==> calls[|calls| - 1].limitedAt <= now)
    ensures Remembers(Admissions(calls), After(calls).history, now, limit)
  {
    if calls != [] {
      var n := |calls| - 1;
      RunRemembers(calls[..n], limit, calls[n].limitedAt);
      hide Remembers, Handle;
      HandledRemembers(Admissions(calls[..n]), After(calls[..n]), calls[n], limit);
      LaterRemembers(Admissions(calls), After(calls).history, calls[n].limitedAt, now, limit);
    }
  }

  /** In every run, no hour holds more admitted requests than the limit. */
  lemma {:induction false} HourlyLimit(calls: seq<Call>, limit: nat, i: nat, j: nat)
    requires Limited(calls, limit) && i <= j < |Admissions(calls)|
    requires Admissions(calls)[j] - Admissions(calls)[i] < WINDOW
    ensures j - i + 1 <= limit
  {
    var n := |calls| - 1;
    if j < |Admissions(calls[..n])| {
      HourlyLimit(calls[..n], limit, i, j);
    } else {
      RunRemembers(calls, limit, calls[n].limitedAt);
    }
  }

  lemma {:induction false} RecentAreRecent(history: seq<Instant>, now: Instant)
    ensures forall t :: t in Recent(history, now) ==> now - t < WINDOW
  {
    if history != [] { RecentAreRecent(history[..|history| - 1], now); }
  }

  /** A request that gets as far as the limit, from someone allowed and with nothing of theirs to settle first. */
  predicate AsksToRun(s: State, c: Call) {
    && c.command.Some? && c.command.value.Run? && c.sender in c.allowed && c.channelOpen
    && (s.pending.Some? && s.pending.value.sender == c.sender ==> c.reply.None?)
  }

  lemma AskedIffRoom(s: State, c: Call, limit: nat)
    requires AsksToRun(s, c) && c.rateLimit == Some(limit)
    ensures Handle(s, c).0 == if |Recent(s.history, c.limitedAt)| < limit then Asked(c.command.value.goal) else TooMany(limit)
  {
    hide Recent;
  }

  /**
    The limit refuses no more than it says: after every run, a request is
    turned away exactly when the limit is zero or the request admitted that many
    places back is less than an hour old.
  */
  lemma RefusedIffHourIsFull(calls: seq<Call>, limit: nat)
    requires calls != [] && Limited(calls, limit)
    requires AsksToRun(After(calls[..|calls| - 1]), calls[|calls| - 1])
    ensures var n := |calls| - 1;
      var admitted, now := Admissions(calls[..n]), calls[n].limitedAt;
      OutcomeAt(calls, n) == if limit == 0 || (|admitted| >= limit && now - admitted[|admitted| - limit] < 3_600_000_000_000)
        then TooMany(limit) else Asked(calls[n].command.value.goal)
  {
    var n := |calls| - 1;
    var s, now, admitted := After(calls[..n]), calls[n].limitedAt, Admissions(calls[..n]);
    RunRemembers(calls[..n], limit, now);
    AskedIffRoom(s, calls[n], limit);
    PrunedRemembers(admitted, s.history, now, limit);
    RecentAreRecent(s.history, now);
    var recent := Recent(s.history, now);
    hide Recent, Handle;
    if |recent| == limit && limit > 0 {
      assert admitted[|admitted| - limit] == recent[0] && recent[0] in recent;
    }
  }
}
