/**
  Turning repeated corrections into proposals: a selector over the ranked
  ledger and an actuator that files what it can phrase, each topic once.
*/
module CorrectionConsolidation {
  import opened Wrappers
  import opened Bytes
  import opened Sorting
  import opened DecayingLedger
  import opened Text
  import CorrectionLedger

  type Topic = CorrectionLedger.Topic
  type ProposalId = seq<Byte>

  const CORRECTION_SCAN_TOP_K: nat := 64

  datatype Config = Config(enabled: bool, minCorrections: real, minSamples: nat, maxProposalsPerCycle: nat)

  datatype Candidate = Candidate(topic: Topic, corrections: real, samples: nat)

  /** `correction:` and the topic. */
  const ID_PREFIX: seq<Byte> := [99, 111, 114, 114, 101, 99, 116, 105, 111, 110, 58]

  function ProposalIdOf(topic: Topic): ProposalId {
    ID_PREFIX + topic
  }

  lemma ProposalIdInjective(s: Topic, t: Topic)
    ensures ProposalIdOf(s) == ProposalIdOf(t) <==> s == t
  {
    assert ProposalIdOf(s)[|ID_PREFIX|..] == s && ProposalIdOf(t)[|ID_PREFIX|..] == t;
  }

  /** The id is that text, byte by byte, and then the topic. */
  lemma ProposalIdText(topic: Topic, text: string)
    requires text == "correction:"
    ensures var id := ProposalIdOf(topic);
      && |id| == |text| + |topic| && id[|text|..] == topic
      && forall i :: 0 <= i < |text| ==> id[i] == text[i] as int
  {
  }

  /** The proposal chain, as far as this pass sees it: the ids it knows, in any status. */
  class ProposalLog {
    var ids: set<ProposalId>

    constructor ()
      ensures ids == {}
    {
      ids := {};
    }

    /** An append may be refused, or be recorded in memory and then fail to reach the disk. */
    method AppendPending(id: ProposalId, outcome: AppendOutcome) returns (ok: bool)
      modifies this
      ensures ok <==> outcome.Filed?
      ensures ids == if outcome.Invalid? then old(ids) else old(ids) + {id}
    {
      if !outcome.Invalid? {
        ids := ids + {id};
      }
      ok := outcome.Filed?;
    }
  }

  datatype AppendOutcome = Filed | Invalid | Unsaved

  // ---- The selector ----

  predicate Keeps(config: Config, x: RankedRow, known: set<ProposalId>) {
    x.row.score >= config.minCorrections && x.row.samples >= config.minSamples && ProposalIdOf(x.key) !in known
  }

  function CandidateOf(x: RankedRow): Candidate {
    Candidate(x.key, x.row.score, x.row.samples)
  }

  function Kept(config: Config, rows: seq<RankedRow>, known: set<ProposalId>): (out: seq<Candidate>)
    ensures |out| <= |rows|
  {
    if rows == [] then []
    else
      var last := rows[|rows| - 1];
      Kept(config, rows[..|rows| - 1], known) + if Keeps(config, last, known) then [CandidateOf(last)] else []
  }

  /** The selection in one line: filter the first 64 ranked topics, cut to the cap. */
  function Selection(config: Config, ranked: seq<RankedRow>, known: set<ProposalId>): seq<Candidate> {
    if config.enabled then Cut(Kept(config, Cut(ranked, CORRECTION_SCAN_TOP_K), known), config.maxProposalsPerCycle) else []
  }

  /** The rows are judged one by one, in the order of the ranking. */
  lemma {:induction false} KeptSplits(config: Config, a: seq<RankedRow>, b: seq<RankedRow>, known: set<ProposalId>)
    ensures Kept(config, a + b, known) == Kept(config, a, known) + Kept(config, b, known)
  {
    hide Keeps;
    if b == [] {
      assert a + b == a;
    } else {
      assert (a + b)[..|a + b| - 1] == a + b[..|b| - 1];
      KeptSplits(config, a, b[..|b| - 1], known);
    }
  }

  /** A topic is kept when it has enough decayed corrections, from enough windows, and was never proposed. */
  lemma KeptOfOne(config: Config, x: RankedRow, known: set<ProposalId>)
    ensures Kept(config, [x], known)
         == if x.row.score >= config.minCorrections && x.row.samples >= config.minSamples && ID_PREFIX + x.key !in known
            then [Candidate(x.key, x.row.score, x.row.samples)] else []
  {
    assert [x][..0] == [];
  }

  /** A pass selects from the 64 highest ranked topics the first ones kept, up to the cap, and all of them if the cap allows; switched off, none. */
  lemma SelectionIsFirstKept(config: Config, ranked: seq<RankedRow>, known: set<ProposalId>)
    ensures var kept, selected := Kept(config, if |ranked| <= 64 then ranked else ranked[..64], known), Selection(config, ranked, known);
      && (!config.enabled ==> selected == [])
      && (config.enabled ==> selected <= kept)
      && (config.enabled ==> |selected| == if |kept| <= config.maxProposalsPerCycle then |kept| else config.maxProposalsPerCycle)
  {
    hide Kept;
  }

  /** What a ranking guarantees: rank order, and no topic twice. */
  ghost predicate InRankOrder(ranked: seq<RankedRow>) {
    && SortedBy(ranked, (a, b) => RanksBefore(CorrectionLedger.TopicLt, a, b))
    && (forall i, j :: 0 <= i < j < |ranked| ==> ranked[i].key != ranked[j].key)
  }

  predicate MostCorrectedFirst(a: Candidate, b: Candidate) {
    !(b.corrections > a.corrections || (b.corrections == a.corrections && LexLt(b.topic, a.topic)))
  }

  lemma {:induction false} KeptMembers(config: Config, rows: seq<RankedRow>, known: set<ProposalId>, c: Candidate)
    requires c in Kept(config, rows, known)
    ensures exists x :: x in rows && Keeps(config, x, known) && c == CandidateOf(x)
  {
    var n := |rows| - 1;
    if c in Kept(config, rows[..n], known) {
      KeptMembers(config, rows[..n], known, c);
    } else {
      assert rows[n] in rows;
    }
  }

  lemma RankIsMostCorrected(x: RankedRow, y: RankedRow)
    requires RanksBefore(CorrectionLedger.TopicLt, x, y)
    ensures MostCorrectedFirst(CandidateOf(x), CandidateOf(y))
  {
    LexAsymmetric(x.key, y.key);
  }

  /** What is kept is already in the order the final sort asks for. */
  lemma {:induction false} KeptSorted(config: Config, rows: seq<RankedRow>, known: set<ProposalId>)
    requires InRankOrder(rows)
    ensures SortedBy(Kept(config, rows, known), MostCorrectedFirst)
  {
    if rows != [] {
      var n := |rows| - 1;
      KeptSorted(config, rows[..n], known);
      forall c | c in Kept(config, rows[..n], known) ensures MostCorrectedFirst(c, CandidateOf(rows[n])) {
        KeptMembers(config, rows[..n], known, c);
        var x :| x in rows[..n] && c == CandidateOf(x);
        var i :| 0 <= i < n && rows[i] == x;
        assert RanksBefore(CorrectionLedger.TopicLt, rows[i], rows[n]);
        RankIsMostCorrected(x, rows[n]);
      }
    }
  }

  /** Below the floor, nothing further down can be kept: the early break loses nothing. */
  lemma {:induction false} NothingBelowFloor(config: Config, rows: seq<RankedRow>, known: set<ProposalId>, i: nat)
    requires InRankOrder(rows) && i < |rows| && rows[i].row.score < config.minCorrections
    ensures Kept(config, rows, known) == Kept(config, rows[..i], known)
  {
    hide ProposalIdOf;
    var n := |rows| - 1;
    if i == n {
      assert !Keeps(config, rows[n], known);
    } else {
      assert RanksBefore(CorrectionLedger.TopicLt, rows[i], rows[n]);
      NothingBelowFloor(config, rows[..n], known, i);
      assert rows[..n][..i] == rows[..i];
    }
  }

  method SelectFrom(config: Config, ranked: seq<RankedRow>, known: set<ProposalId>) returns (selected: seq<Candidate>)
    requires InRankOrder(ranked)
    ensures selected == Selection(config, ranked, known)
  {
    if !config.enabled {
      return [];
    }
    var rows := Cut(ranked, CORRECTION_SCAN_TOP_K);
    var out: seq<Candidate> := [];
    var seen: set<ProposalId> := {};
    var i := 0;
    while i < |rows|
      invariant 0 <= i <= |rows|
      invariant out == Kept(config, rows[..i], known)
      invariant forall id :: id in seen ==> exists j :: 0 <= j < i && id == ProposalIdOf(rows[j].key)
    {
      var x := rows[i];
      if x.row.score < config.minCorrections {
        break;
      }
      assert rows[..i + 1][..i] == rows[..i];
      assert forall j :: 0 <= j < i ==> rows[j].key != x.key;
      var id := ProposalIdOf(x.key);
      i := i + 1;
      if x.row.samples < config.minSamples {
        continue;
      }
      if id in seen {
        ghost var j :| 0 <= j < i - 1 && id == ProposalIdOf(rows[j].key);
        ProposalIdInjective(rows[j].key, x.key);
        assert false;
        continue;
      }
      seen := seen + {id};
      if id in known {
        continue;
      }
      out := out + [CandidateOf(x)];
    }
    if i < |rows| { NothingBelowFloor(config, rows, known, i); }
    assert rows[..|rows|] == rows;
    KeptSorted(config, rows, known);
    SortOfSorted(out, MostCorrectedFirst);
    out := Sort(out, MostCorrectedFirst);
    selected := Cut(out, config.maxProposalsPerCycle);
  }

  /** The ledger's ranking is in rank order and names no topic twice. */
  lemma RankingInOrder(r: Rates, rows: Ledger, now: nat, ranked: seq<RankedRow>)
    requires IsRanking(r, rows, now, k => true, CorrectionLedger.TopicLt, ranked)
    ensures InRankOrder(ranked)
  {
    forall i, j | 0 <= i < j < |ranked| ensures ranked[i].key != ranked[j].key {
      assert RanksBefore(CorrectionLedger.TopicLt, ranked[i], ranked[j]);
      assert ranked[i] in ranked && ranked[j] in ranked;
      LexAsymmetric(ranked[i].key, ranked[j].key);
    }
  }

  /** The whole selector: the ledger's own ranking, filtered and cut. */
  method SelectCorrections(ledger: PersistentLedger, log: ProposalLog, config: Config, now: nat) returns (selected: seq<Candidate>)
    ensures exists ranked ::
              && IsRanking(ledger.rates, ledger.rows, now, k => true, CorrectionLedger.TopicLt, ranked)
              && selected == Selection(config, ranked, log.ids)
  {
    var ranked := CorrectionLedger.Ranked(ledger, now);
    RankingInOrder(ledger.rates, ledger.rows, now, ranked);
    selected := SelectFrom(config, ranked, log.ids);
  }

  // ---- The actuator ----

  /** A phrasing that came back, and is not blank once trimmed. */
  predicate Phrased(white: char -> bool, value: Option<string>) {
    value.Some? && exists i :: 0 <= i < |value.value| && !white(value.value[i])
  }

  /** That is what trimming to something means. */
  lemma PhrasedIff(white: char -> bool, value: Option<string>)
    ensures Phrased(white, value) <==> value.Some? && Trim(white, value.value) != ""
  {
    if value.Some? {
      var s := value.value;
      if forall i :: 0 <= i < |s| ==> white(s[i]) {
        TrimIff(white, s, "", "");
        assert s + "" + "" == s;
      } else {
        var i :| 0 <= i < |s| && !white(s[i]);
        TrimKeeps(white, s, i);
      }
    }
  }

  datatype Stat = Stat(filed: nat, llmUnavailable: bool, topics: seq<Topic>)

  /** The topics of the candidates that were phrased and whose append was acknowledged. */
  function FiledTopics(white: char -> bool, cands: seq<Candidate>, phrases: seq<Option<string>>, appends: seq<AppendOutcome>): seq<Topic>
    requires |phrases| == |appends| == |cands|
  {
    if cands == [] then []
    else
      var n := |cands| - 1;
      FiledTopics(white, cands[..n], phrases[..n], appends[..n])
      + if Phrased(white, phrases[n]) && appends[n].Filed? then [cands[n].topic] else []
  }

  function IdsAfter(white: char -> bool, cands: seq<Candidate>, phrases: seq<Option<string>>, appends: seq<AppendOutcome>, known: set<ProposalId>): set<ProposalId>
    requires |phrases| == |appends| == |cands|
  {
    if cands == [] then known
    else
      var n := |cands| - 1;
      IdsAfter(white, cands[..n], phrases[..n], appends[..n], known)
      + if Phrased(white, phrases[n]) && !appends[n].Invalid? then {ProposalIdOf(cands[n].topic)} else {}
  }

  /** Exactly the topics with a phrasing and an acknowledged append are filed. */
  lemma {:induction false} FiledIff(white: char -> bool, cands: seq<Candidate>, phrases: seq<Option<string>>, appends: seq<AppendOutcome>, t: Topic)
    requires |phrases| == |appends| == |cands|
    ensures t in FiledTopics(white, cands, phrases, appends) <==>
            exists i :: 0 <= i < |cands| && cands[i].topic == t && Phrased(white, phrases[i]) && appends[i] == Filed
  {
    hide Phrased;
    if cands != [] {
      var n := |cands| - 1;
      FiledIff(white, cands[..n], phrases[..n], appends[..n], t);
      assert forall i :: 0 <= i < n ==> cands[..n][i] == cands[i] && phrases[..n][i] == phrases[i] && appends[..n][i] == appends[i];
    }
  }

  /** An id is known from then on unless its append was refused. */
  lemma {:induction false} KnownIff(
    white: char -> bool, cands: seq<Candidate>, phrases: seq<Option<string>>, appends: seq<AppendOutcome>, known: set<ProposalId>, id: ProposalId)
    requires |phrases| == |appends| == |cands|
    ensures id in IdsAfter(white, cands, phrases, appends, known) <==>
            id in known || exists i :: 0 <= i < |cands| && id == ProposalIdOf(cands[i].topic) && Phrased(white, phrases[i]) && appends[i] != Invalid
  {
    hide Phrased, ProposalIdOf;
    if cands != [] {
      var n := |cands| - 1;
      KnownIff(white, cands[..n], phrases[..n], appends[..n], known, id);
      assert forall i :: 0 <= i < n ==> cands[..n][i] == cands[i] && phrases[..n][i] == phrases[i] && appends[..n][i] == appends[i];
    }
  }

  lemma OneMoreCandidate(
    white: char -> bool, cands: seq<Candidate>, phrases: seq<Option<string>>, appends: seq<AppendOutcome>, i: nat, known: set<ProposalId>)
    requires |phrases| == |appends| == |cands| && i <= |cands|
    ensures i == 0 ==>
      FiledTopics(white, cands[..i], phrases[..i], appends[..i]) == [] && IdsAfter(white, cands[..i], phrases[..i], appends[..i], known) == known
    ensures i < |cands| ==>
      var phrased := Phrased(white, phrases[i]);
      && FiledTopics(white, cands[..i + 1], phrases[..i + 1], appends[..i + 1])
         == FiledTopics(white, cands[..i], phrases[..i], appends[..i]) + (if phrased && appends[i].Filed? then [cands[i].topic] else [])
      && IdsAfter(white, cands[..i + 1], phrases[..i + 1], appends[..i + 1], known)
         == IdsAfter(white, cands[..i], phrases[..i], appends[..i], known) + (if phrased && !appends[i].Invalid? then {ProposalIdOf(cands[i].topic)} else {})
  {
    hide Phrased, ProposalIdOf;
    if i < |cands| {
      assert cands[..i + 1][..i] == cands[..i] && phrases[..i + 1][..i] == phrases[..i] && appends[..i + 1][..i] == appends[..i];
    }
  }

  method Consolidate(
    white: char -> bool, cands: seq<Candidate>, phrases: seq<Option<string>>, appends: seq<AppendOutcome>, log: ProposalLog)
    returns (stat: Stat)
    requires |phrases| == |appends| == |cands|
    modifies log
    ensures stat.topics == FiledTopics(white, cands, phrases, appends) && stat.filed == |stat.topics|
    ensures stat.llmUnavailable <==> cands != [] && forall i :: 0 <= i < |cands| ==> !Phrased(white, phrases[i])
    ensures log.ids == IdsAfter(white, cands, phrases, appends, old(log.ids))
  {
    hide FiledTopics, IdsAfter, Phrased;
    var filed, failures, topics := 0, 0, [];
    OneMoreCandidate(white, cands, phrases, appends, 0, log.ids);
    for i := 0 to |cands|
      invariant topics == FiledTopics(white, cands[..i], phrases[..i], appends[..i]) && filed == |topics|
      invariant log.ids == IdsAfter(white, cands[..i], phrases[..i], appends[..i], old(log.ids))
      invariant failures <= i
      invariant failures == i <==> forall j :: 0 <= j < i ==> !Phrased(white, phrases[j])
      invariant failures == i ==> filed == 0
    {
      OneMoreCandidate(white, cands, phrases, appends, i, old(log.ids));
      if !Phrased(white, phrases[i]) {
        failures := failures + 1;
      } else {
        var ok := log.AppendPending(ProposalIdOf(cands[i].topic), appends[i]);
        if ok {
          filed, topics := filed + 1, topics + [cands[i].topic];
        }
      }
    }
    assert cands[..|cands|] == cands && phrases[..|cands|] == phrases && appends[..|cands|] == appends;
    stat := Stat(filed, |cands| > 0 && filed == 0 && failures == |cands|, topics);
  }

  // ---- Whole histories of cycles ----

  /** One cycle: what the ledger ranked, how phrasing and appending went, and what else reached the log before it. */
  datatype Cycle = Cycle(
    config: Config, ranked: seq<RankedRow>, others: set<ProposalId>,
    phrases: seq<Option<string>>, appends: seq<AppendOutcome>)

  function Selected(c: Cycle, known: set<ProposalId>): seq<Candidate> {
    Selection(c.config, c.ranked, known + c.others)
  }

  /** Cycles whose outcomes match their selections, each over a proper ranking. */
  ghost predicate Happened(white: char -> bool, cycles: seq<Cycle>)
    decreases |cycles|, 0
  {
    cycles != [] ==>
      var c := cycles[|cycles| - 1];
      && Happened(white, cycles[..|cycles| - 1])
      && InRankOrder(c.ranked)
      && |c.phrases| == |c.appends| == |Selected(c, Known(white, cycles[..|cycles| - 1]))|
  }

  /** The ids in the log after the cycles; none is ever forgotten. */
  ghost function Known(white: char -> bool, cycles: seq<Cycle>): set<ProposalId>
    requires Happened(white, cycles)
    decreases |cycles|, 1
  {
    if cycles == [] then {}
    else
      var c, before := cycles[|cycles| - 1], Known(white, cycles[..|cycles| - 1]);
      IdsAfter(white, Selected(c, before), c.phrases, c.appends, before + c.others)
  }

  ghost function AllFiled(white: char -> bool, cycles: seq<Cycle>): seq<Topic>
    requires Happened(white, cycles)
  {
    if cycles == [] then []
    else
      var c, before := cycles[|cycles| - 1], Known(white, cycles[..|cycles| - 1]);
      AllFiled(white, cycles[..|cycles| - 1]) + FiledTopics(white, Selected(c, before), c.phrases, c.appends)
  }

  ghost predicate TopicsOnce(cands: seq<Candidate>) {
    forall i, j :: 0 <= i < j < |cands| ==> cands[i].topic != cands[j].topic
  }

  lemma {:induction false} KeptOnce(config: Config, rows: seq<RankedRow>, known: set<ProposalId>)
    requires InRankOrder(rows)
    ensures TopicsOnce(Kept(config, rows, known))
  {
    if rows != [] {
      var n := |rows| - 1;
      KeptOnce(config, rows[..n], known);
      forall c | c in Kept(config, rows[..n], known) ensures c.topic != rows[n].key {
        KeptMembers(config, rows[..n], known, c);
      }
    }
  }

  lemma SelectionIsNew(config: Config, ranked: seq<RankedRow>, known: set<ProposalId>)
    requires InRankOrder(ranked)
    ensures TopicsOnce(Selection(config, ranked, known))
    ensures forall c :: c in Selection(config, ranked, known) ==> ProposalIdOf(c.topic) !in known
  {
    var rows := Cut(ranked, CORRECTION_SCAN_TOP_K);
    KeptOnce(config, rows, known);
    forall c | c in Selection(config, ranked, known) ensures ProposalIdOf(c.topic) !in known {
      KeptMembers(config, rows, known, c);
    }
  }

  lemma {:induction false} FiledBecomeKnown(white: char -> bool, cands: seq<Candidate>, phrases: seq<Option<string>>, appends: seq<AppendOutcome>, known: set<ProposalId>)
    requires |phrases| == |appends| == |cands|
    ensures known <= IdsAfter(white, cands, phrases, appends, known)
    ensures forall t :: t in FiledTopics(white, cands, phrases, appends) ==> ProposalIdOf(t) in IdsAfter(white, cands, phrases, appends, known)
  {
    hide Phrased, ProposalIdOf;
    if cands != [] {
      var n := |cands| - 1;
      FiledBecomeKnown(white, cands[..n], phrases[..n], appends[..n], known);
    }
  }

  lemma {:induction false} FiledOnce(white: char -> bool, cands: seq<Candidate>, phrases: seq<Option<string>>, appends: seq<AppendOutcome>)
    requires |phrases| == |appends| == |cands| && TopicsOnce(cands)
    ensures forall t :: t in FiledTopics(white, cands, phrases, appends) ==> exists c :: c in cands && c.topic == t
    ensures Distinct(FiledTopics(white, cands, phrases, appends))
  {
    hide Phrased;
    if cands != [] {
      var n := |cands| - 1;
      FiledOnce(white, cands[..n], phrases[..n], appends[..n]);
      assert cands == cands[..n] + [cands[n]];
      assert cands[n] in cands;
      var before := FiledTopics(white, cands[..n], phrases[..n], appends[..n]);
      forall t | t in before ensures t != cands[n].topic {
        var d :| d in cands[..n] && d.topic == t;
      }
      DistinctTogether(before, [cands[n].topic]);
    }
  }

  lemma DistinctTogether<T>(a: seq<T>, b: seq<T>)
    requires Distinct(a) && Distinct(b) && (forall x :: x in b ==> x !in a)
    ensures Distinct(a + b)
  {
    forall i, j | 0 <= i < |a| <= j < |a + b| ensures (a + b)[i] != (a + b)[j] {
      assert a[i] in a && b[j - |a|] in b;
    }
  }

  /** Over any sequence of cycles, each topic is filed at most once. */
  lemma {:induction false} FiledAtMostOnce(white: char -> bool, cycles: seq<Cycle>)
    requires Happened(white, cycles)
    ensures Distinct(AllFiled(white, cycles))
    ensures forall t :: t in AllFiled(white, cycles) ==> ProposalIdOf(t) in Known(white, cycles)
  {
    if cycles != [] {
      var c, init := cycles[|cycles| - 1], cycles[..|cycles| - 1];
      FiledAtMostOnce(white, init);
      var before := Known(white, init) + c.others;
      SelectionIsNew(c.config, c.ranked, before);
      var cands := Selected(c, Known(white, init));
      FiledBecomeKnown(white, cands, c.phrases, c.appends, before);
      FiledOnce(white, cands, c.phrases, c.appends);
      var filed := FiledTopics(white, cands, c.phrases, c.appends);
      forall t | t in filed ensures t !in AllFiled(white, init) {
        var d :| d in cands && d.topic == t;
      }
      DistinctTogether(AllFiled(white, init), filed);
    }
  }
}
