/**
  What the audit chain contributes to a briefing: the newest pages instead of
  the whole chain, and a cache shared by polls while the chain keeps growing.
*/
module Briefing {
  import opened Wrappers
  import opened HmacChain

  const DAY: int := 86_400
  const WEEK: int := 7 * DAY
  const PAGE: nat := 512

  // ---- The fold ----

  /** Whole seconds since the epoch; `appendedAt` counts nanoseconds. */
  function UnixOf(e: SignedEntry): int {
    if e.appendedAt < 0 then 0 else e.appendedAt / 1_000_000_000
  }

  datatype NotifyFact = NotifyFact(target: string, at: int, errorKind: Option<string>)

  datatype AuditFacts = AuditFacts(
    notifications: seq<NotifyFact>,
    changes: seq<(string, int)>,
    memoriesSaved: seq<int>,
    spend: real,
    spendUntracked: bool)

  const NO_FACTS := AuditFacts([], [], [], 0.0, false)

  datatype Cost = Cost(usd: real, priced: bool)

  type Pricing = (string, TokenCounts) -> Cost

  predicate IsReadOnlyBase(base: string) {
    base in [
      "app.read", "audit.read", "budget.read", "calc.eval", "calendar.read", "channel.receive", "config.read",
      "contacts.read", "convert.units", "date.compute", "drive.read", "email.read", "file_watch.list",
      "fs.metadata", "fs.read", "git.read", "graph.read", "health.read", "kitchen.read", "llm.call", "llm.embed",
      "memory.read", "mission.list", "mission.status", "n8n.read", "net.dns", "net.fetch", "notion.read",
      "obsidian.read", "ollama.list", "ollama.show", "remind.read", "routing.read", "routing.status",
      "schedule.list", "skill_defaults.list", "skill_defaults.read", "skills.invoke", "skills.list", "task.read",
      "web.search", "webhook.list"]
  }

  predicate IsChange(base: string) {
    !IsReadOnlyBase(base) && !("memory." <= base) && base !in ["workspace", "mcp.call"]
  }

  /** What one entry contributes. */
  function FactsOfOne(e: SignedEntry, windowStart: int, now: int, pricing: Pricing): AuditFacts {
    var t := UnixOf(e);
    var spent :=
      if e.event.LlmCost? && t >= now - DAY then
        var cost := pricing(e.event.model, e.event.tokens);
        NO_FACTS.(spend := cost.usd, spendUntracked := !cost.priced)
      else NO_FACTS;
    if t < windowStart then spent
    else match e.event
      case ToolCall(base, completed) =>
        if completed && IsChange(base) then spent.(changes := [(base, t)]) else spent
      case MemoryAccess(write) =>
        if write then spent.(memoriesSaved := [t]) else spent
      case AutoNotifyDispatched(target, outcome) =>
        (match outcome
         case Delivered => spent.(notifications := [NotifyFact(target, t, None)])
         case Failed(kind) => spent.(notifications := [NotifyFact(target, t, Some(kind))])
         case NotSent => spent)
      case _ => spent
  }

  function Combine(a: AuditFacts, b: AuditFacts): AuditFacts {
    AuditFacts(a.notifications + b.notifications, a.changes + b.changes, a.memoriesSaved + b.memoriesSaved,
      a.spend + b.spend, a.spendUntracked || b.spendUntracked)
  }

  /** The facts of a list: its entries' contributions, in order. */
  function FactsOf(es: seq<SignedEntry>, windowStart: int, now: int, pricing: Pricing): AuditFacts {
    if es == [] then NO_FACTS
    else
      var n := |es| - 1;
      Combine(FactsOf(es[..n], windowStart, now, pricing), FactsOfOne(es[n], windowStart, now, pricing))
  }

  method CollectFacts(es: seq<SignedEntry>, windowStart: int, now: int, pricing: Pricing) returns (a: AuditFacts)
    ensures a == FactsOf(es, windowStart, now, pricing)
  {
    hide Combine, FactsOfOne;
    a := NO_FACTS;
    for i := 0 to |es|
      invariant a == FactsOf(es[..i], windowStart, now, pricing)
    {
      assert es[..i + 1][..i] == es[..i];
      a := AddEntry(a, es[i], windowStart, now, pricing);
    }
    assert es[..|es|] == es;
  }

  method AddEntry(before: AuditFacts, e: SignedEntry, windowStart: int, now: int, pricing: Pricing) returns (a: AuditFacts)
    ensures a == Combine(before, FactsOfOne(e, windowStart, now, pricing))
  {
    hide IsChange;
    a := before;
    var t := UnixOf(e);
    if e.event.LlmCost? && t >= now - DAY {
      var cost := pricing(e.event.model, e.event.tokens);
      a := a.(spend := a.spend + cost.usd);
      if !cost.priced {
        a := a.(spendUntracked := true);
      }
    }
    if t >= windowStart {
      match e.event
      case ToolCall(base, completed) =>
        if completed && IsChange(base) {
          a := a.(changes := a.changes + [(base, t)]);
        }
      case MemoryAccess(write) =>
        if write {
          a := a.(memoriesSaved := a.memoriesSaved + [t]);
        }
      case AutoNotifyDispatched(target, outcome) =>
        if outcome.Delivered? {
          a := a.(notifications := a.notifications + [NotifyFact(target, t, None)]);
        } else if outcome.Failed? {
          a := a.(notifications := a.notifications + [NotifyFact(target, t, Some(outcome.errorKind))]);
        }
      case _ =>
    }
  }

  lemma CombineNothing(a: AuditFacts)
    ensures Combine(a, NO_FACTS) == a && Combine(NO_FACTS, a) == a
  {
  }

  lemma CombineAssociates(a: AuditFacts, b: AuditFacts, c: AuditFacts)
    ensures Combine(Combine(a, b), c) == Combine(a, Combine(b, c))
  {
  }

  /** The facts of a chain read in two parts are the facts of the parts. */
  lemma {:induction false} FactsSplit(a: seq<SignedEntry>, b: seq<SignedEntry>, windowStart: int, now: int, pricing: Pricing)
    ensures FactsOf(a + b, windowStart, now, pricing)
         == Combine(FactsOf(a, windowStart, now, pricing), FactsOf(b, windowStart, now, pricing))
  {
    hide Combine, FactsOfOne;
    if b == [] {
      assert a + b == a;
      CombineNothing(FactsOf(a, windowStart, now, pricing));
    } else {
      var n := |b| - 1;
      assert (a + b)[..|a + b| - 1] == a + b[..n];
      FactsSplit(a, b[..n], windowStart, now, pricing);
      CombineAssociates(FactsOf(a, windowStart, now, pricing), FactsOf(b[..n], windowStart, now, pricing),
        FactsOfOne(b[n], windowStart, now, pricing));
    }
  }

  /**
    What one entry contributes: a completed tool call that changed something, a
    memory written and a notification sent or failed, if they are in the window,
    and the cost of a call to a model in the last day.
  */
  lemma FactsOfEntry(e: SignedEntry, windowStart: int, now: int, pricing: Pricing)
    requires e.appendedAt >= 0
    ensures var f, t := FactsOf([e], windowStart, now, pricing), e.appendedAt / 1_000_000_000;
      && (f.changes != [] <==>
            && t >= windowStart && e.event.ToolCall? && e.event.completed && !IsReadOnlyBase(e.event.scopeBase)
            && !("memory." <= e.event.scopeBase) && e.event.scopeBase != "workspace" && e.event.scopeBase != "mcp.call")
      && (f.changes != [] ==> f.changes == [(e.event.scopeBase, t)])
      && f.memoriesSaved == (if t >= windowStart && e.event.MemoryAccess? && e.event.write then [t] else [])
      && f.notifications ==
         (if t < windowStart || !e.event.AutoNotifyDispatched? || e.event.outcome.NotSent? then []
          else if e.event.outcome.Delivered? then [NotifyFact(e.event.target, t, None)]
          else [NotifyFact(e.event.target, t, Some(e.event.outcome.errorKind))])
      && f.spend == (if e.event.LlmCost? && t >= now - 86_400 then pricing(e.event.model, e.event.tokens).usd else 0.0)
      && f.spendUntracked == (e.event.LlmCost? && t >= now - 86_400 && !pricing(e.event.model, e.event.tokens).priced)
  {
    OneEntry(e, windowStart, now, pricing);
    if e.event.ToolCall? { ChangesIff(e.event.scopeBase); }
    hide IsChange, IsReadOnlyBase, FactsOf;
  }

  lemma OneEntry(e: SignedEntry, windowStart: int, now: int, pricing: Pricing)
    ensures FactsOf([e], windowStart, now, pricing) == FactsOfOne(e, windowStart, now, pricing)
  {
    hide FactsOfOne, Combine;
    assert [e][..0] == [];
    CombineNothing(FactsOfOne(e, windowStart, now, pricing));
  }

  lemma ChangesIff(base: string)
    ensures IsChange(base) <==>
            !IsReadOnlyBase(base) && !("memory." <= base) && base != "workspace" && base != "mcp.call"
  {
    hide IsReadOnlyBase;
  }

  // ---- Reading back to a time ----

  function Since(es: seq<SignedEntry>, since: int): seq<SignedEntry> {
    if es == [] then []
    else
      var n := |es| - 1;
      Since(es[..n], since) + if UnixOf(es[n]) >= since then [es[n]] else []
  }

  ghost predicate InTimeOrder(es: seq<SignedEntry>) {
    forall i, j :: 0 <= i <= j < |es| ==> UnixOf(es[i]) <= UnixOf(es[j])
  }

  /** Entries before `since` add nothing to facts whose window and last day start no earlier. */
  lemma {:induction false} SinceIsEnough(es: seq<SignedEntry>, since: int, windowStart: int, now: int, pricing: Pricing)
    requires since <= windowStart && since <= now - DAY
    ensures FactsOf(Since(es, since), windowStart, now, pricing) == FactsOf(es, windowStart, now, pricing)
  {
    hide Combine;
    if es != [] {
      var n := |es| - 1;
      SinceIsEnough(es[..n], since, windowStart, now, pricing);
      CombineNothing(FactsOf(es[..n], windowStart, now, pricing));
      var one := FactsOfOne(es[n], windowStart, now, pricing);
      assert UnixOf(es[n]) < since ==> one == NO_FACTS;
      var kept := Since(es[..n], since) + [es[n]];
      assert kept[..|kept| - 1] == Since(es[..n], since);
      assert Since(es[..n], since) + [] == Since(es[..n], since);
    }
  }

  lemma {:induction false} SinceSplits(a: seq<SignedEntry>, b: seq<SignedEntry>, since: int)
    ensures Since(a + b, since) == Since(a, since) + Since(b, since)
  {
    if b == [] {
      assert a + b == a;
    } else {
      assert (a + b)[..|a + b| - 1] == a + b[..|b| - 1];
      SinceSplits(a, b[..|b| - 1], since);
    }
  }

  lemma {:induction false} NoneSince(es: seq<SignedEntry>, since: int)
    requires forall i :: 0 <= i < |es| ==> UnixOf(es[i]) < since
    ensures Since(es, since) == []
  {
    if es != [] { NoneSince(es[..|es| - 1], since); }
  }

  lemma EarlierIsBefore(chain: seq<SignedEntry>, end: nat, since: int)
    requires InTimeOrder(chain) && end <= |chain|
    ensures end < |chain| && UnixOf(chain[end]) < since ==> forall i :: 0 <= i < end ==> UnixOf(chain[..end][i]) < since
  {
  }

  type Fetch = (nat, nat) -> Result<seq<SignedEntry>, string>

  /** A read of the chain that may fail, but returns what is there when it does not. */
  ghost predicate Truthful(fetch: Fetch, chain: seq<SignedEntry>) {
    forall from: nat, n: nat :: from + n <= |chain| && fetch(from, n).Ok? ==> fetch(from, n).value == chain[from..from + n]
  }

  /** Pages in the order they were read, newest first, joined oldest first. */
  function Joined(pages: seq<seq<SignedEntry>>): seq<SignedEntry> {
    if pages == [] then [] else pages[|pages| - 1] + Joined(pages[..|pages| - 1])
  }

  /** Paging back until a page starts before `since` finds every entry at or after it, in order. */
  method PageBack(ghost chain: seq<SignedEntry>, len: nat, fetch: Fetch, since: int) returns (r: Result<seq<SignedEntry>, string>)
    requires len <= |chain| && InTimeOrder(chain) && Truthful(fetch, chain)
    ensures r.Ok? ==> r.value == Since(chain[..len], since)
    ensures r.Err? ==> exists from: nat, n: nat :: from + n <= len && fetch(from, n) == Err(r.error)
  {
    hide Since, InTimeOrder;
    var end := len;
    var pages: seq<seq<SignedEntry>> := [];
    var reached := false;
    while end > 0 && !reached
      invariant 0 <= end <= len
      invariant Joined(pages) == chain[end..len]
      invariant reached ==> end < len && UnixOf(chain[end]) < since
    {
      var from := if end > PAGE then end - PAGE else 0;
      var fetched := fetch(from, end - from);
      if fetched.Err? {
        return Err(fetched.error);
      }
      var page := fetched.value;
      reached := page != [] && UnixOf(page[0]) < since;
      assert (pages + [page])[..|pages|] == pages;
      assert chain[from..end] + chain[end..len] == chain[from..len];
      pages := pages + [page];
      end := from;
    }
    EarlierIsBefore(chain, end, since);
    NoneSince(chain[..end], since);
    SinceSplits(chain[..end], chain[end..len], since);
    assert chain[..len] == chain[..end] + chain[end..len];
    r := Ok(Since(Joined(pages), since));
  }

  // ---- The cache ----

  /** Where the log starts: the last visit, else a day back, never more than a week. */
  function Window(lastHere: Option<int>, now: int): (int, bool) {
    match lastHere
    case None => (now - DAY, false)
    case Some(t) => if t < now - WEEK then (now - WEEK, true) else (t, false)
  }

  datatype AuditKey = AuditKey(chainLen: nat, windowStart: int, minute: int)

  function KeyFor(chainLen: nat, lastHere: Option<int>, now: int): AuditKey {
    AuditKey(chainLen, Window(lastHere, now / 60 * 60).0, now / 60)
  }

  /** A poll asks, to the minute, for what is new since the last visit, or the last day, and never for more than a week. */
  lemma PollKey(chainLen: nat, lastHere: Option<int>, now: int)
    ensures var key := KeyFor(chainLen, lastHere, now);
      && key.chainLen == chainLen && key.minute * 60 <= now < key.minute * 60 + 60
      && (lastHere.None? ==> key.windowStart == key.minute * 60 - 86_400)
      && (lastHere.Some? && lastHere.value >= key.minute * 60 - 604_800 ==> key.windowStart == lastHere.value)
      && (lastHere.Some? && lastHere.value < key.minute * 60 - 604_800 ==> key.windowStart == key.minute * 60 - 604_800)
    ensures Window(lastHere, now).1 <==> lastHere.Some? && lastHere.value < now - 604_800
  {
  }

  /** The walk a poll makes for its key, over the first `n` entries. */
  function Walk(chain: seq<SignedEntry>, n: nat, key: AuditKey, pricing: Pricing): AuditFacts
    requires n <= |chain|
  {
    var now := key.minute * 60;
    var since := if key.windowStart < now - DAY then key.windowStart else now - DAY;
    FactsOf(Since(chain[..n], since), key.windowStart, now, pricing)
  }

  function FullFold(chain: seq<SignedEntry>, n: nat, key: AuditKey, pricing: Pricing): AuditFacts
    requires n <= |chain|
  {
    FactsOf(chain[..n], key.windowStart, key.minute * 60, pricing)
  }

  lemma WalkIsFullFold(chain: seq<SignedEntry>, n: nat, key: AuditKey, pricing: Pricing)
    requires n <= |chain|
    ensures Walk(chain, n, key, pricing) == FullFold(chain, n, key, pricing)
  {
    hide FactsOf, Since;
    var now := key.minute * 60;
    SinceIsEnough(chain[..n], if key.windowStart < now - DAY then key.windowStart else now - DAY, key.windowStart, now, pricing);
  }

  /** The walk of a briefing: it reads only the newest pages, and yields the facts of the whole chain. */
  method WalkChain(ghost chain: seq<SignedEntry>, len: nat, fetch: Fetch, key: AuditKey, pricing: Pricing)
    returns (r: Result<AuditFacts, string>)
    requires len <= |chain| && InTimeOrder(chain) && Truthful(fetch, chain)
    ensures r.Ok? ==> r.value == FullFold(chain, len, key, pricing)
    ensures r.Err? ==> exists from: nat, n: nat :: from + n <= len && fetch(from, n) == Err(r.error)
  {
    var now := key.minute * 60;
    var entries := PageBack(chain, len, fetch, if key.windowStart < now - DAY then key.windowStart else now - DAY);
    if entries.Err? {
      return Err(entries.error);
    }
    var facts := CollectFacts(entries.value, key.windowStart, now, pricing);
    WalkIsFullFold(chain, len, key, pricing);
    r := Ok(facts);
  }

  type Cell = Option<(AuditKey, AuditFacts)>

  /** What a poll gets and what the cell then holds, given what its walk would return. */
  function Served(cell: Cell, key: AuditKey, walked: Result<AuditFacts, string>): (Result<AuditFacts, string>, Cell) {
    if cell.Some? && cell.value.0 == key then (Ok(cell.value.1), cell)
    else if walked.Ok? then (walked, Some((key, walked.value)))
    else (walked, cell)
  }

  class AuditFactsCache {
    var last: Cell

    constructor ()
      ensures last == None
    {
      last := None;
    }

    method GetOrCompute(key: AuditKey, compute: () -> Result<AuditFacts, string>) returns (r: Result<AuditFacts, string>)
      modifies this
      ensures (r, last) == Served(old(last), key, compute())
      ensures old(last).Some? && old(last).value.0 == key ==> r == Ok(old(last).value.1) && last == old(last)
      ensures !(old(last).Some? && old(last).value.0 == key) ==>
                r == compute() && last == if r.Ok? then Some((key, r.value)) else old(last)
    {
      if last.Some? && last.value.0 == key {
        return Ok(last.value.1);
      }
      r := compute();
      if r.Ok? {
        last := Some((key, r.value));
      }
    }
  }

  // ---- Appends and polls, interleaved ----

  type PollId = nat

  /** Each poll takes its key from the chain as it is then, and is served later. */
  datatype State = State(chain: seq<SignedEntry>, cell: Cell, keys: map<PollId, AuditKey>)

  datatype Event =
    | Append(e: SignedEntry)
    | Ask(id: PollId, lastHere: Option<int>, now: int)
    /** The walk sees the first `n` entries, or fails. */
    | Serve(id: PollId, n: nat, failed: bool)

  predicate Possible(s: State, ev: Event) {
    match ev
    case Append(e) => s.chain != [] ==> UnixOf(s.chain[|s.chain| - 1]) <= UnixOf(e)
    case Ask(id, _, _) => id !in s.keys
    case Serve(id, n, _) => id in s.keys && s.keys[id].chainLen <= n <= |s.chain|
  }

  function ServedNow(s: State, ev: Event, pricing: Pricing): (Result<AuditFacts, string>, Cell)
    requires Possible(s, ev) && ev.Serve?
  {
    var key := s.keys[ev.id];
    Served(s.cell, key, if ev.failed then Err("the chain could not be read") else Ok(Walk(s.chain, ev.n, key, pricing)))
  }

  function Step(s: State, ev: Event, pricing: Pricing): State
    requires Possible(s, ev)
  {
    match ev
    case Append(e) => s.(chain := s.chain + [e])
    case Ask(id, lastHere, now) => s.(keys := s.keys[id := KeyFor(|s.chain|, lastHere, now)])
    case Serve(id, n, failed) => s.(cell := ServedNow(s, ev, pricing).1, keys := s.keys - {id})
  }

  predicate PossibleRun(s: State, evs: seq<Event>, pricing: Pricing)
    decreases |evs|
  {
    evs == [] || (Possible(s, evs[0]) && PossibleRun(Step(s, evs[0], pricing), evs[1..], pricing))
  }

  function Exec(s: State, evs: seq<Event>, pricing: Pricing): State
    requires PossibleRun(s, evs, pricing)
    decreases |evs|
  {
    if evs == [] then s else Exec(Step(s, evs[0], pricing), evs[1..], pricing)
  }

  /** The facts are the whole chain's, at some length not below the one the key saw. */
  ghost predicate UpToDate(chain: seq<SignedEntry>, key: AuditKey, f: AuditFacts, pricing: Pricing) {
    exists n: nat :: key.chainLen <= n <= |chain| && f == FullFold(chain, n, key, pricing)
  }

  ghost predicate Inv(s: State, pricing: Pricing) {
    && InTimeOrder(s.chain)
    && (forall id :: id in s.keys ==> s.keys[id].chainLen <= |s.chain|)
    && (s.cell.Some? ==> UpToDate(s.chain, s.cell.value.0, s.cell.value.1, pricing))
  }

  lemma ServesTheTruth(s: State, ev: Event, pricing: Pricing)
    requires Inv(s, pricing) && Possible(s, ev) && ev.Serve?
    ensures var (r, cell) := ServedNow(s, ev, pricing);
      && (r.Ok? ==> UpToDate(s.chain, s.keys[ev.id], r.value, pricing))
      && (cell.Some? ==> UpToDate(s.chain, cell.value.0, cell.value.1, pricing))
  {
    hide Walk, FullFold;
    WalkIsFullFold(s.chain, ev.n, s.keys[ev.id], pricing);
  }

  lemma StepKeeps(s: State, ev: Event, pricing: Pricing)
    requires Inv(s, pricing) && Possible(s, ev)
    ensures Inv(Step(s, ev, pricing), pricing)
  {
    if ev.Serve? { ServesTheTruth(s, ev, pricing); }
    if ev.Append? && s.cell.Some? {
      var (key, f) := s.cell.value;
      var n: nat :| key.chainLen <= n <= |s.chain| && f == FullFold(s.chain, n, key, pricing);
      assert (s.chain + [ev.e])[..n] == s.chain[..n];
      assert f == FullFold(s.chain + [ev.e], n, key, pricing);
    }
  }

  /**
    Over any interleaving of appends and polls, every answer is the fold of the
    whole chain at a length the chain had after the poll took its key.
  */
  lemma {:induction false} EveryAnswerIsTrue(s: State, evs: seq<Event>, ev: Event, pricing: Pricing)
    requires Inv(s, pricing) && PossibleRun(s, evs, pricing)
    requires ev.Serve? && Possible(Exec(s, evs, pricing), ev)
    ensures var now := Exec(s, evs, pricing);
      ServedNow(now, ev, pricing).0.Ok? ==>
        UpToDate(now.chain, now.keys[ev.id], ServedNow(now, ev, pricing).0.value, pricing)
    decreases |evs|
  {
    hide Inv, Step, ServedNow, UpToDate;
    if evs == [] {
      ServesTheTruth(s, ev, pricing);
    } else {
      StepKeeps(s, evs[0], pricing);
      EveryAnswerIsTrue(Step(s, evs[0], pricing), evs[1..], ev, pricing);
    }
  }
}
