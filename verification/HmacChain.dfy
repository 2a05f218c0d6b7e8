/**
  The in-memory audit log: a chain of entries in which each entry's tag is an
  HMAC over the previous tag and the canonical bytes of its own event.
*/
module HmacChain {
  import opened Wrappers
  import opened Bytes

  type Mac = m: seq<Byte> | |m| == 32 witness seq(32, _ => 0)

  datatype TokenCounts = TokenCounts(input: nat, output: nat, cacheRead: nat, cacheWrite: nat)

  datatype NotifyOutcome = Delivered | Failed(errorKind: string) | NotSent

  /** The event kinds the briefing tells apart; every other kind is `Other`. */
  datatype AuditEvent =
    | ToolCall(scopeBase: string, completed: bool)
    | MemoryAccess(write: bool)
    | AutoNotifyDispatched(target: string, outcome: NotifyOutcome)
    | LlmCost(model: string, tokens: TokenCounts)
    | Other(payload: seq<Byte>)

  datatype SignedEntry = SignedEntry(
    seqNo: nat, appendedAt: int, event: AuditEvent, mac: Mac, prevMac: Mac)

  datatype BreakReason = WrongSeq(found: nat) | PrevMacMismatch | MacMismatch

  datatype AuditError =
    | ChainBroken(at: nat, reason: BreakReason)
    | Serialize
    | CorruptStoredEntry(at: nat)
    | TailTruncated(anchorSeq: nat, diskSeq: Option<nat>)
    | Storage

  /** HMAC-SHA256 as a function of key and message, and JSON canonicalization, which may fail. */
  datatype Primitives = Primitives(
    hmac: (seq<Byte>, seq<Byte>) -> Mac,
    canon: AuditEvent -> Option<seq<Byte>>)

  /** `"aivyx-audit-v1-genesis"`, left-padded with zeros to 32 bytes. */
  const GENESIS: Mac :=
    [0, 0, 0, 0, 0, 0, 0, 0, 0, 0,
     97, 105, 118, 121, 120, 45, 97, 117, 100, 105, 116, 45, 118, 49, 45,
     103, 101, 110, 101, 115, 105, 115]

  /** The tag before the first entry is that text, right-aligned in its 32 bytes. */
  lemma GenesisIsItsText(text: string)
    requires text == "aivyx-audit-v1-genesis"
    ensures forall i :: 0 <= i < 32 - |text| ==> GENESIS[i] == 0
    ensures forall i :: 0 <= i < |text| ==> GENESIS[32 - |text| + i] == text[i] as int
  {
  }

  function HeadMac(es: seq<SignedEntry>): Mac {
    if es == [] then GENESIS else es[|es| - 1].mac
  }

  /** The entry `append` would add to `es`, unless the event has no canonical form. */
  function NextEntry(c: Primitives, key: seq<Byte>, es: seq<SignedEntry>, event: AuditEvent, now: int): Option<SignedEntry> {
    match c.canon(event)
    case None => None
    case Some(bytes) =>
      var prev := HeadMac(es);
      Some(SignedEntry(|es|, now, event, c.hmac(key, prev + bytes), prev))
  }

  /** Entry `i` carries its position, its predecessor's tag and the tag of its own content. */
  predicate Intact(c: Primitives, key: seq<Byte>, es: seq<SignedEntry>, i: nat)
    requires i < |es|
  {
    var e := es[i];
    && e.seqNo == i
    && e.prevMac == HeadMac(es[..i])
    && c.canon(e.event).Some?
    && e.mac == c.hmac(key, e.prevMac + c.canon(e.event).value)
  }

  ghost predicate Accepts(c: Primitives, key: seq<Byte>, es: seq<SignedEntry>) {
    forall i | 0 <= i < |es| :: Intact(c, key, es, i)
  }

  /** What the verify loop reports about entry `i`, in the order it checks. */
  function Defect(c: Primitives, key: seq<Byte>, es: seq<SignedEntry>, i: nat): (r: Option<AuditError>)
    requires i < |es|
    ensures r.None? <==> Intact(c, key, es, i)
    ensures r.Some? ==> r.value == Serialize || (r.value.ChainBroken? && r.value.at == i)
  {
    var e := es[i];
    if e.seqNo != i then Some(ChainBroken(i, WrongSeq(e.seqNo)))
    else if e.prevMac != HeadMac(es[..i]) then Some(ChainBroken(i, PrevMacMismatch))
    else if c.canon(e.event).None? then Some(Serialize)
    else if e.mac != c.hmac(key, e.prevMac + c.canon(e.event).value) then Some(ChainBroken(i, MacMismatch))
    else None
  }

  /** The verdict of a verify loop that stands at entry `i`: the first defect from there on. */
  function Verdict(c: Primitives, key: seq<Byte>, es: seq<SignedEntry>, i: nat): (r: Result<(), AuditError>)
    requires i <= |es|
    ensures r.Ok? <==> forall k | i <= k < |es| :: Intact(c, key, es, k)
    ensures r.Err? ==>
              exists k | i <= k < |es| ::
                && Defect(c, key, es, k) == Some(r.error)
                && (forall j | i <= j < k :: Intact(c, key, es, j))
    decreases |es| - i
  {
    if i == |es| then Ok(())
    else match Defect(c, key, es, i)
      case Some(e) => Err(e)
      case None => Verdict(c, key, es, i + 1)
  }

  class HmacChainLog {
    const c: Primitives
    const key: seq<Byte>
    var entries: seq<SignedEntry>

    constructor (c: Primitives, key: seq<Byte>)
      ensures this.c == c && this.key == key && entries == []
    {
      this.c, this.key, entries := c, key, [];
    }

    /** Takes the entries as they are; the caller has verified them. */
    constructor FromVerifiedEntries(c: Primitives, key: seq<Byte>, entries: seq<SignedEntry>)
      ensures this.c == c && this.key == key && this.entries == entries
    {
      this.c, this.key, this.entries := c, key, entries;
    }

    method Append(event: AuditEvent, now: int) returns (r: Result<nat, AuditError>)
      modifies this
      ensures match NextEntry(c, key, old(entries), event, now)
              case None => r == Err(Serialize) && entries == old(entries)
              case Some(e) => r == Ok(|old(entries)|) && entries == old(entries) + [e]
      ensures r.Ok? <==> c.canon(event).Some?
      ensures r.Ok? ==>
                var prev := HeadMac(old(entries));
                entries[|old(entries)|]
                == SignedEntry(|old(entries)|, now, event, c.hmac(key, prev + c.canon(event).value), prev)
    {
      var bytes := c.canon(event);
      if bytes.None? {
        return Err(Serialize);
      }
      var prev: Mac := GENESIS;
      if |entries| > 0 {
        prev := entries[|entries| - 1].mac;
      }
      var e := SignedEntry(|entries|, now, event, c.hmac(key, prev + bytes.value), prev);
      r := Ok(|entries|);
      entries := entries + [e];
    }

    method Verify() returns (r: Result<(), AuditError>)
      ensures r == Verdict(c, key, entries, 0)
    {
      var expectedPrev: Mac := GENESIS;
      var i := 0;
      while i < |entries|
        invariant 0 <= i <= |entries|
        invariant expectedPrev == HeadMac(entries[..i])
        invariant Verdict(c, key, entries, 0) == Verdict(c, key, entries, i)
      {
        var e := entries[i];
        if e.seqNo != i {
          return Err(ChainBroken(i, WrongSeq(e.seqNo)));
        }
        if e.prevMac != expectedPrev {
          return Err(ChainBroken(e.seqNo, PrevMacMismatch));
        }
        var bytes := c.canon(e.event);
        if bytes.None? {
          return Err(Serialize);
        }
        if c.hmac(key, expectedPrev + bytes.value) != e.mac {
          return Err(ChainBroken(e.seqNo, MacMismatch));
        }
        expectedPrev := e.mac;
        i := i + 1;
      }
      r := Ok(());
    }

    /** At most `limit` entries from position `from` on; none when `from` is past the end. */
    method EntriesRange(from: nat, limit: nat) returns (page: seq<SignedEntry>)
      ensures from <= |entries| ==> page <= entries[from..] && |page| == if limit < |entries| - from then limit else |entries| - from
      ensures from > |entries| ==> page == []
    {
      if from >= |entries| {
        return [];
      }
      var end := if from + limit < |entries| then from + limit else |entries|;
      page := entries[from..end];
    }
  }

  // ---- What append and verify mean together ----

  lemma AppendKeepsAcceptance(c: Primitives, key: seq<Byte>, es: seq<SignedEntry>, event: AuditEvent, now: int)
    requires Accepts(c, key, es)
    ensures match NextEntry(c, key, es, event, now)
            case None => true
            case Some(e) => Accepts(c, key, es + [e])
  {
    var next := NextEntry(c, key, es, event, now);
    if next.Some? {
      var es' := es + [next.value];
      forall i | 0 <= i < |es'| ensures Intact(c, key, es', i) {
        assert es'[..i] == es[..i];
        if i < |es| { assert Intact(c, key, es, i); } else { assert es[..i] == es; }
      }
    }
  }

  lemma PrefixAccepted(c: Primitives, key: seq<Byte>, es: seq<SignedEntry>, n: nat)
    requires n <= |es| && Accepts(c, key, es)
    ensures Accepts(c, key, es[..n])
  {
    forall i | 0 <= i < n ensures Intact(c, key, es[..n], i) {
      assert Intact(c, key, es, i);
      assert es[..n][..i] == es[..i];
    }
  }

  /** A fresh log to which these events were appended at these times. */
  function Replay(c: Primitives, key: seq<Byte>, events: seq<AuditEvent>, clock: seq<int>): (r: Option<seq<SignedEntry>>)
    requires |clock| == |events|
    ensures r.Some? ==> |r.value| == |events|
  {
    if events == [] then Some([])
    else
      var n := |events| - 1;
      match Replay(c, key, events[..n], clock[..n])
      case None => None
      case Some(es) =>
        match NextEntry(c, key, es, events[n], clock[n])
        case None => None
        case Some(e) => Some(es + [e])
  }

  function Events(es: seq<SignedEntry>): seq<AuditEvent> {
    seq(|es|, i requires 0 <= i < |es| => es[i].event)
  }

  function Untimed(es: seq<SignedEntry>): seq<SignedEntry> {
    seq(|es|, i requires 0 <= i < |es| => es[i].(appendedAt := 0))
  }

  /**
    Verification accepts a list exactly when it is, but for the times, what
    appending its own events builds, whatever the clock showed.
  */
  lemma {:induction false} AcceptsIffReplayed(c: Primitives, key: seq<Byte>, es: seq<SignedEntry>, clock: seq<int>)
    requires |clock| == |es|
    ensures Accepts(c, key, es) <==>
            Replay(c, key, Events(es), clock).Some? && Untimed(Replay(c, key, Events(es), clock).value) == Untimed(es)
  {
    if es != [] {
      var n := |es| - 1;
      AcceptsIffReplayed(c, key, es[..n], clock[..n]);
      assert Events(es)[..n] == Events(es[..n]);
      AcceptsSnoc(c, key, es);
      UntimedSnoc(es);
      var init := Replay(c, key, Events(es[..n]), clock[..n]);
      if init.Some? {
        var next := NextEntry(c, key, init.value, es[n].event, clock[n]);
        if Untimed(init.value) == Untimed(es[..n]) { SameUntimed(init.value, es[..n]); }
        if next.Some? {
          var whole := init.value + [next.value];
          UntimedSnoc(whole);
          assert whole[..n] == init.value;
          SnocEqual(Untimed(init.value), next.value.(appendedAt := 0), Untimed(es[..n]), es[n].(appendedAt := 0));
        }
      }
      hide Accepts, Untimed, Events;
    }
  }

  lemma AcceptsSnoc(c: Primitives, key: seq<Byte>, es: seq<SignedEntry>)
    requires es != []
    ensures Accepts(c, key, es) <==> Accepts(c, key, es[..|es| - 1]) && Intact(c, key, es, |es| - 1)
  {
    var n := |es| - 1;
    if Accepts(c, key, es) { PrefixAccepted(c, key, es, n); }
    if Accepts(c, key, es[..n]) && Intact(c, key, es, n) {
      forall i | 0 <= i < |es| ensures Intact(c, key, es, i) {
        if i < n {
          assert Intact(c, key, es[..n], i);
          assert es[..n][..i] == es[..i];
        }
      }
    }
  }

  lemma UntimedSnoc(es: seq<SignedEntry>)
    requires es != []
    ensures Untimed(es) == Untimed(es[..|es| - 1]) + [es[|es| - 1].(appendedAt := 0)]
  {
  }

  lemma SnocEqual<T>(a: seq<T>, x: T, b: seq<T>, y: T)
    ensures a + [x] == b + [y] <==> a == b && x == y
  {
    if a + [x] == b + [y] {
      assert a == (a + [x])[..|a + [x]| - 1] == b && x == (a + [x])[|a + [x]| - 1] == y;
    }
  }

  lemma SameUntimed(a: seq<SignedEntry>, b: seq<SignedEntry>)
    requires Untimed(a) == Untimed(b)
    ensures |a| == |b| && HeadMac(a) == HeadMac(b)
  {
    assert |Untimed(a)| == |a| && |Untimed(b)| == |b|;
    if a != [] {
      assert Untimed(a)[|a| - 1] == Untimed(b)[|b| - 1];
    }
  }

  /** The bytes an entry's tag is taken over. */
  function Message(c: Primitives, e: SignedEntry): seq<Byte> {
    e.prevMac + if c.canon(e.event).Some? then c.canon(e.event).value else []
  }

  /** Two entries of these logs whose different messages have one tag. */
  ghost predicate SharedTag(c: Primitives, key: seq<Byte>, a: seq<SignedEntry>, b: seq<SignedEntry>) {
    exists x, y :: x in a && y in b && Message(c, x) != Message(c, y) && c.hmac(key, Message(c, x)) == c.hmac(key, Message(c, y))
  }

  /** An entry whose message has the genesis value for a tag. */
  ghost predicate GenesisTag(c: Primitives, key: seq<Byte>, es: seq<SignedEntry>) {
    exists x :: x in es && c.hmac(key, Message(c, x)) == GENESIS
  }

  /** Two entries of these logs whose different events have one canonical form. */
  ghost predicate SharedForm(c: Primitives, a: seq<SignedEntry>, b: seq<SignedEntry>) {
    exists x, y :: x in a && y in b && x.event != y.event && c.canon(x.event).Some? && c.canon(x.event) == c.canon(y.event)
  }

  /** What it takes, in these two logs and no others, for the chain of tags to be ambiguous. */
  ghost predicate Coincidence(c: Primitives, key: seq<Byte>, a: seq<SignedEntry>, b: seq<SignedEntry>) {
    SharedTag(c, key, a, b) || GenesisTag(c, key, a) || GenesisTag(c, key, b) || SharedForm(c, a, b)
  }

  /**
    The head tag commits to the whole log: two valid logs with the same head
    are the same log (but for the times), or name entries of theirs that break
    the MAC or the canonical form.
  */
  lemma {:induction false} HeadDeterminesLog(c: Primitives, key: seq<Byte>, a: seq<SignedEntry>, b: seq<SignedEntry>)
    requires Accepts(c, key, a) && Accepts(c, key, b)
    ensures HeadMac(a) == HeadMac(b) ==> Untimed(a) == Untimed(b) || Coincidence(c, key, a, b)
    ensures Untimed(a) == Untimed(b) ==> HeadMac(a) == HeadMac(b)
  {
    if Untimed(a) == Untimed(b) { SameUntimed(a, b); }
    if a != [] { assert Intact(c, key, a, |a| - 1) && a[|a| - 1] in a; }
    if b != [] { assert Intact(c, key, b, |b| - 1) && b[|b| - 1] in b; }
    if a != [] && b != [] && HeadMac(a) == HeadMac(b) {
      var m, n := |a| - 1, |b| - 1;
      if Message(c, a[m]) == Message(c, b[n]) {
        SameMessage(c, a[m], b[n]);
        PrefixAccepted(c, key, a, m);
        PrefixAccepted(c, key, b, n);
        HeadDeterminesLog(c, key, a[..m], b[..n]);
        if Untimed(a[..m]) == Untimed(b[..n]) {
          SameUntimed(a[..m], b[..n]);
          UntimedSnoc(a);
          UntimedSnoc(b);
        }
      }
    }
  }

  /** A tag has a fixed length, so a message splits one way only. */
  lemma SameMessage(c: Primitives, x: SignedEntry, y: SignedEntry)
    requires c.canon(x.event).Some? && c.canon(y.event).Some? && Message(c, x) == Message(c, y)
    ensures x.prevMac == y.prevMac && c.canon(x.event) == c.canon(y.event)
  {
    var m, n := Message(c, x), Message(c, y);
    assert x.prevMac == m[..32] == n[..32] == y.prevMac;
    assert c.canon(x.event).value == m[32..] == n[32..] == c.canon(y.event).value;
  }

  /**
    Replacing the event of one entry is reported at that entry, and goes
    unnoticed exactly when the new event has the old one's tag.
  */
  lemma ReplacedEventReported(c: Primitives, key: seq<Byte>, es: seq<SignedEntry>, i: nat, event: AuditEvent)
    requires Accepts(c, key, es) && i < |es|
    ensures Verdict(c, key, es[i := es[i].(event := event)], 0)
         == if c.canon(event).None? then Err(Serialize)
            else if c.hmac(key, Message(c, es[i].(event := event))) != es[i].mac then Err(ChainBroken(i, MacMismatch))
            else Ok(())
  {
    var es' := es[i := es[i].(event := event)];
    assert Intact(c, key, es, i);
    forall j | 0 <= j < |es| && j != i ensures Intact(c, key, es', j) {
      assert Intact(c, key, es, j);
      assert HeadMac(es'[..j]) == HeadMac(es[..j]) by {
        assert j > 0 ==> es'[..j][j - 1] == es'[j - 1] && es[..j][j - 1] == es[j - 1];
      }
    }
    assert es'[..i] == es[..i];
    if !Intact(c, key, es', i) {
      VerdictAtFirstDefect(c, key, es', 0, i);
    } else {
      assert forall j :: 0 <= j < |es'| ==> Intact(c, key, es', j);
      var unit := Verdict(c, key, es', 0).value;
      assert unit == ();
    }
  }

  /**
    Overwriting one other field of an entry is reported as what it is: a wrong
    number, a broken link, a wrong tag. Only the time is not covered.
  */
  lemma OverwrittenFieldReported(c: Primitives, key: seq<Byte>, es: seq<SignedEntry>, i: nat, n: nat, m: Mac, time: int)
    requires Accepts(c, key, es) && i < |es|
    ensures n != i ==> Verdict(c, key, es[i := es[i].(seqNo := n)], 0) == Err(ChainBroken(i, WrongSeq(n)))
    ensures m != es[i].prevMac ==> Verdict(c, key, es[i := es[i].(prevMac := m)], 0) == Err(ChainBroken(i, PrevMacMismatch))
    ensures m != es[i].mac ==> Verdict(c, key, es[i := es[i].(mac := m)], 0) == Err(ChainBroken(i, MacMismatch))
    ensures Verdict(c, key, es[i := es[i].(appendedAt := time)], 0) == Ok(())
  {
    assert Intact(c, key, es, i);
    var wrongSeq, wrongLink, wrongTag := es[i := es[i].(seqNo := n)], es[i := es[i].(prevMac := m)], es[i := es[i].(mac := m)];
    assert wrongSeq[..i] == wrongLink[..i] == wrongTag[..i] == es[..i];
    SameBefore(c, key, es, wrongSeq, i);
    SameBefore(c, key, es, wrongLink, i);
    SameBefore(c, key, es, wrongTag, i);
    if n != i { VerdictAtFirstDefect(c, key, wrongSeq, 0, i); }
    if m != es[i].prevMac { VerdictAtFirstDefect(c, key, wrongLink, 0, i); }
    if m != es[i].mac { VerdictAtFirstDefect(c, key, wrongTag, 0, i); }
    TimeIsFree(c, key, es, i, time);
  }

  lemma SameBefore(c: Primitives, key: seq<Byte>, es: seq<SignedEntry>, es': seq<SignedEntry>, i: nat)
    requires Accepts(c, key, es) && i < |es| == |es'| && es'[..i] == es[..i]
    ensures forall j | 0 <= j < i :: Intact(c, key, es', j)
  {
    forall j | 0 <= j < i ensures Intact(c, key, es', j) {
      assert Intact(c, key, es, j) && es'[..j] == es'[..i][..j] == es[..i][..j] == es[..j];
      assert es'[j] == es'[..i][j] == es[..i][j] == es[j];
    }
  }

  lemma TimeIsFree(c: Primitives, key: seq<Byte>, es: seq<SignedEntry>, i: nat, time: int)
    requires Accepts(c, key, es) && i < |es|
    ensures Verdict(c, key, es[i := es[i].(appendedAt := time)], 0) == Ok(())
  {
    var es' := es[i := es[i].(appendedAt := time)];
    forall j | 0 <= j < |es| ensures Intact(c, key, es', j) {
      assert Intact(c, key, es, j);
      assert j > 0 ==> es'[..j][j - 1] == es'[j - 1] && es[..j][j - 1] == es[j - 1];
    }
    var unit := Verdict(c, key, es', 0).value;
    assert unit == ();
  }

  /** Taking an entry out from before the last is reported at its place, by the number of the entry that moved there. */
  lemma RemovedEntryReported(c: Primitives, key: seq<Byte>, es: seq<SignedEntry>, i: nat)
    requires Accepts(c, key, es) && i + 1 < |es|
    ensures Verdict(c, key, es[..i] + es[i + 1..], 0) == Err(ChainBroken(i, WrongSeq(i + 1)))
  {
    var es' := es[..i] + es[i + 1..];
    assert Intact(c, key, es, i + 1);
    forall j | 0 <= j < i ensures Intact(c, key, es', j) {
      assert Intact(c, key, es, j) && es'[..j] == es[..j];
    }
    VerdictAtFirstDefect(c, key, es', 0, i);
  }

  lemma {:induction false} VerdictAtFirstDefect(c: Primitives, key: seq<Byte>, es: seq<SignedEntry>, from: nat, i: nat)
    requires from <= i < |es|
    requires (forall j | from <= j < i :: Intact(c, key, es, j)) && !Intact(c, key, es, i)
    ensures Verdict(c, key, es, from) == Err(Defect(c, key, es, i).value)
    decreases i - from
  {
    if from < i {
      assert Intact(c, key, es, from);
      VerdictAtFirstDefect(c, key, es, from + 1, i);
    }
  }
}
