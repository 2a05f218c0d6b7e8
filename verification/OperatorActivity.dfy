/** The operator's last activity: visits, where "since you were last here" starts, and what of it is stored. */
module OperatorActivity {
  import opened Wrappers

  const VISIT_GAP_SECS: int := 30 * 60
  const PERSIST_EVERY_SECS: int := 60

  datatype Activity = Activity(lastAction: Option<int>, anchor: Option<int>) {
    function Touched(now: int): Activity {
      if lastAction.Some? && now - lastAction.value <= VISIT_GAP_SECS then Activity(Some(now), anchor)
      else Activity(Some(now), lastAction)
    }

    function LastHere(now: int): Option<int> {
      if lastAction.Some? && now - lastAction.value > VISIT_GAP_SECS then lastAction else anchor
    }
  }

  const FRESH := Activity(None, None)

  // ---- What the fold computes ----

  ghost predicate Ascending(times: seq<int>) {
    forall i, j :: 0 <= i <= j < |times| ==> times[i] <= times[j]
  }

  /** Where a clock that stood at `a` stands after further actions. */
  function AfterMore(a: Activity, more: seq<int>): Activity {
    if more == [] then a else AfterMore(a, more[..|more| - 1]).Touched(more[|more| - 1])
  }

  function AfterActions(times: seq<int>): Activity {
    AfterMore(FRESH, times)
  }

  /** Action `i` was followed by more than a visit's gap of quiet, seen at `now`. */
  predicate EndsVisit(times: seq<int>, now: int, i: nat)
    requires i < |times|
  {
    (if i + 1 < |times| then times[i + 1] else now) - times[i] > VISIT_GAP_SECS
  }

  ghost predicate IsLatestVisitEnd(times: seq<int>, now: int, end: Option<int>) {
    match end
    case None => forall i: nat :: i < |times| ==> !EndsVisit(times, now, i)
    case Some(t) => exists i: nat :: i < |times| && times[i] == t && EndsVisit(times, now, i)
                      && forall j: nat :: i < j < |times| ==> !EndsVisit(times, now, j)
  }

  function LatestEnd(times: seq<int>, now: int): (end: Option<nat>)
    ensures end.None? ==> forall i: nat :: i < |times| ==> !EndsVisit(times, now, i)
    ensures end.Some? ==> end.value < |times| && EndsVisit(times, now, end.value)
                          && forall j: nat :: end.value < j < |times| ==> !EndsVisit(times, now, j)
  {
    if times == [] then None
    else
      var n := |times| - 1;
      assert forall i: nat :: i < n ==> EndsVisit(times, now, i) == EndsVisit(times[..n], times[n], i);
      if EndsVisit(times, now, n) then Some(n) else LatestEnd(times[..n], times[n])
  }

  /** The first time at which a history that goes on with `more`, or is read at `now`, asks whether the visit has ended. */
  function FirstAsked(more: seq<int>, now: int): int {
    if more == [] then now else more[0]
  }

  /** After further actions, "last here" is the latest visit they ended, or else what the clock read when first asked. */
  lemma {:induction false} LastHereAfterMore(a: Activity, more: seq<int>, now: int)
    requires a.anchor.Some? ==> a.lastAction.Some?
    ensures AfterMore(a, more).LastHere(now)
         == match LatestEnd(more, now) case Some(i) => Some(more[i]) case None => a.LastHere(FirstAsked(more, now))
    ensures more != [] ==> AfterMore(a, more).lastAction == Some(more[|more| - 1])
  {
    if more != [] {
      LastHereAfterMore(a, more[..|more| - 1], more[|more| - 1]);
    }
  }

  /** "Last here" is the latest action of the whole history that more than a visit's gap of quiet followed. */
  lemma LastHereIsLatestVisitEnd(times: seq<int>, now: int)
    ensures IsLatestVisitEnd(times, now, AfterActions(times).LastHere(now))
  {
    LastHereAfterMore(FRESH, times, now);
  }

  /** An anchor is always more than a visit's gap before the last action. */
  predicate Spaced(a: Activity) {
    a.anchor.Some? ==> a.lastAction.Some? && a.lastAction.value - a.anchor.value > VISIT_GAP_SECS
  }

  lemma {:induction false} HistoriesAreSpaced(times: seq<int>)
    requires Ascending(times)
    ensures Spaced(AfterActions(times))
    ensures AfterActions(times).lastAction == if times == [] then None else Some(times[|times| - 1])
  {
    if times != [] { HistoriesAreSpaced(times[..|times| - 1]); }
  }

  // ---- What is stored ----

  function Abs(x: int): nat { if x < 0 then -x else x }

  predicate WorthPersisting(persisted: Activity, next: Activity) {
    next.anchor != persisted.anchor
    || match (persisted.lastAction, next.lastAction)
       case (Some(p), Some(n)) => Abs(n - p) >= PERSIST_EVERY_SECS
       case (p, n) => p != n
  }

  /** The clock's two halves: the current value, and the one last persisted. */
  datatype Halves = Halves(current: Activity, persisted: Activity)

  /** An action, and what the store would answer to a write. */
  datatype Action = Action(now: int, putOk: bool)

  predicate Refused(h: Halves, t: Action) {
    WorthPersisting(h.persisted, h.current.Touched(t.now)) && !t.putOk
  }

  function AfterTouch(h: Halves, t: Action): Halves {
    var next := h.current.Touched(t.now);
    Halves(next, if WorthPersisting(h.persisted, next) && t.putOk then next else h.persisted)
  }

  function AfterTouches(touches: seq<Action>): Halves {
    if touches == [] then Halves(FRESH, FRESH)
    else AfterTouch(AfterTouches(touches[..|touches| - 1]), touches[|touches| - 1])
  }

  function Times(touches: seq<Action>): (times: seq<int>)
    ensures |times| == |touches|
  {
    if touches == [] then [] else Times(touches[..|touches| - 1]) + [touches[|touches| - 1].now]
  }

  /** The last touch was due to be written and the store refused it. */
  predicate LastRefused(touches: seq<Action>) {
    touches != [] && Refused(AfterTouches(touches[..|touches| - 1]), touches[|touches| - 1])
  }

  /** What is stored is the state after some of the actions, and is not worth writing again unless the last due write was refused. */
  lemma {:induction false} StoredIsAPast(touches: seq<Action>) returns (k: nat)
    ensures var h, times := AfterTouches(touches), Times(touches);
      && h.current == AfterActions(times)
      && k <= |times| && h.persisted == AfterActions(times[..k])
      && (!LastRefused(touches) ==> !WorthPersisting(h.persisted, h.current))
  {
    if touches == [] {
      k := 0;
    } else {
      var n := |touches| - 1;
      var times := Times(touches);
      k := StoredIsAPast(touches[..n]);
      assert times[..n] == Times(touches[..n]) && times[..n][..k] == times[..k];
      var before := AfterTouches(touches[..n]);
      if WorthPersisting(before.persisted, before.current.Touched(touches[n].now)) && touches[n].putOk {
        k := n + 1;
        assert times[..k] == times;
      }
    }
  }

  class ActivityClock {
    var current: Activity
    var persisted: Activity
    const hasStore: bool
    /** What the store holds under the activity key. */
    ghost var stored: Activity

    ghost predicate Valid()
      reads this
    {
      hasStore ==> persisted == stored
    }

    constructor Load(found: Option<Activity>, hasStore: bool)
      ensures Valid() && this.hasStore == hasStore
      ensures current == persisted == if hasStore && found.Some? then found.value else FRESH
    {
      var state := if hasStore && found.Some? then found.value else FRESH;
      current, persisted, stored := state, state, state;
      this.hasStore := hasStore;
    }

    /** `putOk` is what the store would answer; a refused write leaves the store as it was. */
    method Touch(now: int, putOk: bool)
      requires Valid()
      modifies this
      ensures Valid()
      ensures current == old(current).Touched(now)
      ensures hasStore ==> Halves(current, persisted) == AfterTouch(old(Halves(current, persisted)), Action(now, putOk))
      ensures hasStore && !(WorthPersisting(old(persisted), current) && !putOk) ==>
        stored.anchor == current.anchor && stored.lastAction.Some? && Abs(now - stored.lastAction.value) < PERSIST_EVERY_SECS
      ensures var was := old(persisted);
        var skipped := was.anchor == current.anchor && was.lastAction.Some? && -60 < now - was.lastAction.value < 60;
        && (skipped ==> stored == old(stored) && persisted == was)
        && (!skipped && hasStore && putOk ==> stored == current)
      ensures stored == old(stored) || stored == current
      ensures WorthPersisting(old(persisted), current) && !putOk ==> stored == old(stored) && persisted == old(persisted)
      ensures !hasStore ==> persisted == old(persisted)
    {
      current := current.Touched(now);
      if !hasStore || !WorthPersisting(persisted, current) {
        return;
      }
      var previous := persisted;
      persisted := current;
      var next := current;
      if putOk {
        stored := next;
      } else if persisted == next {
        persisted := previous;
      }
    }
  }

  // ---- What a restart can lose ----

  predicate Close(a: Option<int>, b: Option<int>) {
    match (a, b)
    case (Some(s), Some(t)) => Abs(s - t) < PERSIST_EVERY_SECS
    case (None, None) => true
    case _ => false
  }

  /** `stored` and `actual` agree on whether a visit has ended by `t`. */
  predicate SameSide(stored: Activity, actual: Activity, t: int) {
    stored.lastAction.Some? && actual.lastAction.Some? ==>
      (t - stored.lastAction.value > VISIT_GAP_SECS <==> t - actual.lastAction.value > VISIT_GAP_SECS)
  }

  /** Before any further action, a read is a minute off at most exactly when both last actions lie on its side of the visit gap. */
  lemma ReadIsCloseIff(stored: Activity, actual: Activity, now: int)
    requires Spaced(stored) && !WorthPersisting(stored, actual)
    requires stored.lastAction.Some? && actual.lastAction.Some? ==> stored.lastAction.value <= actual.lastAction.value
    ensures Close(stored.LastHere(now), actual.LastHere(now)) <==> SameSide(stored, actual, now)
  {
  }

  /**
    The documented precision, a minute, over whole histories: the clock went on
    from the value stored after the first `k` actions instead of the true one,
    and met the same further actions. "Last here" is then a minute off at most
    if and only if a visit has ended since, or both last actions lay on the same
    side of the visit gap when that was first asked.
  */
  lemma RestartLosesAMinuteIff(times: seq<int>, k: nat, more: seq<int>, now: int)
    requires Ascending(times) && k <= |times|
    requires !WorthPersisting(AfterActions(times[..k]), AfterActions(times))
    ensures var stored, actual := AfterActions(times[..k]), AfterActions(times);
      Close(AfterMore(stored, more).LastHere(now), AfterMore(actual, more).LastHere(now)) <==>
        (exists i: nat :: i < |more| && EndsVisit(more, now, i)) || SameSide(stored, actual, FirstAsked(more, now))
  {
    var stored, actual := AfterActions(times[..k]), AfterActions(times);
    HistoriesAreSpaced(times[..k]);
    HistoriesAreSpaced(times);
    ReadIsCloseIff(stored, actual, FirstAsked(more, now));
    LastHereAfterMore(stored, more, now);
    LastHereAfterMore(actual, more, now);
  }

  /**
    The same over runs of the clock: a restart after any touches whose last due
    write was not refused.
  */
  lemma RestartAfterTouches(touches: seq<Action>, more: seq<int>, now: int)
    requires Ascending(Times(touches)) && !LastRefused(touches)
    ensures var h := AfterTouches(touches);
      Close(AfterMore(h.persisted, more).LastHere(now), AfterMore(h.current, more).LastHere(now)) <==>
        (exists i: nat :: i < |more| && EndsVisit(more, now, i)) || SameSide(h.persisted, h.current, FirstAsked(more, now))
  {
    var k := StoredIsAPast(touches);
    RestartLosesAMinuteIff(Times(touches), k, more, now);
  }

  /**
    A restart half an hour after the last action can move "last here" by hours,
    and the next action keeps it there for the whole visit that follows.
  */
  lemma RestartCanLoseHours()
    ensures var times := [0, 10_000, 10_050];
      var stored, actual := AfterActions(times[..2]), AfterActions(times);
      && !WorthPersisting(stored, actual)
      && actual.LastHere(11_840) == Some(0) && stored.LastHere(11_840) == Some(10_000)
      && AfterMore(actual, [11_840]).LastHere(11_900) == Some(0)
      && AfterMore(stored, [11_840]).LastHere(11_900) == Some(10_000)
  {
    assert [0, 10_000, 10_050][..2] == [0, 10_000] && [0, 10_000][..1] == [0] && [0][..0] == [];
    assert AfterActions([0]) == Activity(Some(0), None);
    assert AfterActions([0, 10_000]) == Activity(Some(10_000), Some(0));
    assert [11_840][..0] == [];
  }
}
