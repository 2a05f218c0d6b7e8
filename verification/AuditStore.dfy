/**
  The reopen path of the persistent audit log: scan the rows of the audit
  domain, decode them, replay the chain, and compare the tail with the anchor.
*/
module AuditStore {
  import opened Wrappers
  import opened Bytes
  import opened Sorting
  import opened HmacChain

  type Table = map<seq<Byte>, seq<Byte>>

  datatype Row = Row(key: seq<Byte>, value: seq<Byte>)

  datatype ChainAnchor = ChainAnchor(lastSeq: nat, lastMac: Mac)

  /** The JSON encodings of stored values. */
  datatype Codec = Codec(
    encEntry: SignedEntry -> Option<seq<Byte>>,
    decEntry: seq<Byte> -> Option<SignedEntry>,
    encAnchor: ChainAnchor -> seq<Byte>,
    decAnchor: seq<Byte> -> Option<ChainAnchor>)

  ghost predicate Faithful(x: Codec) {
    && (forall e :: x.encEntry(e).Some? ==> x.decEntry(x.encEntry(e).value) == Some(e))
    && (forall a :: x.decAnchor(x.encAnchor(a)) == Some(a))
  }

  /** `a\0` */
  const AUDIT_KEY_PREFIX: seq<Byte> := [97, 0]

  /** `z\0chain-anchor` */
  const CHAIN_ANCHOR_KEY: seq<Byte> := [122, 0, 99, 104, 97, 105, 110, 45, 97, 110, 99, 104, 111, 114]

  lemma KeysAreTheirTexts(anchor: string)
    requires anchor == "chain-anchor"
    ensures |AUDIT_KEY_PREFIX| == 2 && AUDIT_KEY_PREFIX[0] == 'a' as int && AUDIT_KEY_PREFIX[1] == 0
    ensures |CHAIN_ANCHOR_KEY| == 2 + |anchor| && CHAIN_ANCHOR_KEY[0] == 'z' as int && CHAIN_ANCHOR_KEY[1] == 0
    ensures forall i :: 0 <= i < |anchor| ==> CHAIN_ANCHOR_KEY[2 + i] == anchor[i] as int
  {
  }

  /** The key of entry `n`; a `u64` holds eight bytes of it. */
  function AuditKey(n: nat): seq<Byte> {
    AUDIT_KEY_PREFIX + ToBE(n, 8)
  }

  function SeqFromKeyBytes(key: seq<Byte>): Option<nat> {
    if |key| != |AUDIT_KEY_PREFIX| + 8 then None
    else if !(AUDIT_KEY_PREFIX <= key) then None
    else Some(FromBE(key[|AUDIT_KEY_PREFIX|..]))
  }

  lemma SeqFromAuditKey(n: nat)
    requires n < TWO_64
    ensures SeqFromKeyBytes(AuditKey(n)) == Some(n)
  {
    Widths();
    FromToBE(n, 8);
    assert AuditKey(n)[2..] == ToBE(n, 8);
  }

  lemma AuditKeyFromSeq(key: seq<Byte>)
    requires SeqFromKeyBytes(key).Some?
    ensures SeqFromKeyBytes(key).value < TWO_64
    ensures AuditKey(SeqFromKeyBytes(key).value) == key
  {
    Widths();
    ToFromBE(key[2..]);
    assert key == key[..2] + key[2..];
  }

  lemma AuditKeyOrder(m: nat, n: nat)
    requires m < TWO_64 && n < TWO_64
    ensures LexLt(AuditKey(m), AuditKey(n)) <==> m < n
  {
    Widths();
    BigEndianOrder(m, n, 8);
    LexPrefix(AUDIT_KEY_PREFIX, ToBE(m, 8), ToBE(n, 8));
  }

  // ---- The store's range scan ----

  /** The least key above every key that starts with `prefix`, if there is one. */
  function NextLex(prefix: seq<Byte>): Option<seq<Byte>> {
    if prefix == [] then None
    else
      var n := |prefix| - 1;
      if prefix[n] != 255 then Some(prefix[..n] + [prefix[n] + 1]) else NextLex(prefix[..n])
  }

  predicate InScan(prefix: seq<Byte>, key: seq<Byte>) {
    LexLe(prefix, key) && (NextLex(prefix).Some? ==> LexLt(key, NextLex(prefix).value))
  }

  lemma {:induction false} BetweenSuccessors(p: seq<Byte>, x: int, key: seq<Byte>)
    ensures LexLe(p + [x], key) && LexLt(key, p + [x + 1]) <==> p + [x] <= key
  {
    if p == [] {
      assert p + [x] == [x] && p + [x + 1] == [x + 1];
      assert [x][1..] == [] && [x + 1][1..] == [];
      if key != [] {
        assert !LexLt(key[1..], []) && (LexLt(key, [x + 1]) <==> key[0] < x + 1);
        assert LexLt(key, [x]) <==> key[0] < x;
        assert [x] <= key <==> key[0] == x;
      }
    } else if key != [] {
      assert (p + [x])[1..] == p[1..] + [x] && (p + [x + 1])[1..] == p[1..] + [x + 1];
      BetweenSuccessors(p[1..], x, key[1..]);
      assert p + [x] == [p[0]] + (p[1..] + [x]) && key == [key[0]] + key[1..];
    }
  }

  /** The range the store scans holds exactly the keys that start with the prefix. */
  lemma {:induction false} ScanRangeIsPrefix(prefix: seq<Byte>, key: seq<Byte>)
    ensures InScan(prefix, key) <==> prefix <= key
  {
    if prefix != [] {
      var n := |prefix| - 1;
      var p, x := prefix[..n], prefix[n];
      assert prefix == p + [x];
      if x != 255 {
        BetweenSuccessors(p, x, key);
      } else {
        ScanRangeIsPrefix(p, key);
        LexPrefix(p, [], [x]);
        assert p + [] == p;
        if LexLe(prefix, key) {
          LexAsymmetric(p, key);
          LexAsymmetric(prefix, key);
          if LexLt(key, p) { LexTransitive(key, p, prefix); }
        }
        if p <= key {
          var rest := key[n..];
          assert key == p + rest;
          LexPrefix(p, rest, [x]);
          assert [x][1..] == [];
        }
      }
    }
  }

  ghost predicate KeyLt(a: Row, b: Row) {
    LexLt(a.key, b.key)
  }

  /** What the store hands back: the table's rows in range, in key order. */
  ghost predicate IsScan(table: Table, prefix: seq<Byte>, rows: seq<Row>) {
    && SortedBy(rows, KeyLt)
    && (forall r :: r in rows <==> InScan(prefix, r.key) && r.key in table && table[r.key] == r.value)
  }

  lemma ScanUnique(table: Table, prefix: seq<Byte>, a: seq<Row>, b: seq<Row>)
    requires IsScan(table, prefix, a) && IsScan(table, prefix, b)
    ensures a == b
  {
    forall r, s ensures KeyLt(r, s) ==> !KeyLt(s, r) {
      LexAsymmetric(r.key, s.key);
    }
    SortedUnique(a, b, KeyLt);
  }

  ghost predicate KeyLe(a: Row, b: Row) {
    LexLe(a.key, b.key)
  }

  /** Every table has a scan. */
  lemma ScanExists(table: Table, prefix: seq<Byte>) returns (rows: seq<Row>)
    ensures IsScan(table, prefix, rows)
  {
    var list := RowsInRange(table, table.Keys, prefix);
    KeyLeIsPreorder();
    forall r, s | r in list && s in list && r != s && KeyLe(r, s) ensures KeyLt(r, s) {
      LexAsymmetric(r.key, s.key);
    }
    SortDistinct(list, KeyLe, KeyLt);
    rows := Sort(list, KeyLe);
  }

  lemma KeyLeIsPreorder()
    ensures TotalPreorder(KeyLe)
  {
    forall a: Row, b: Row ensures KeyLe(a, b) || KeyLe(b, a) {
      LexAsymmetric(a.key, b.key);
    }
    forall a: Row, b: Row, c: Row | KeyLe(a, b) && KeyLe(b, c) ensures KeyLe(a, c) {
      LexAsymmetric(a.key, b.key);
      LexAsymmetric(b.key, c.key);
      if LexLt(c.key, a.key) && LexLt(a.key, b.key) { LexTransitive(c.key, a.key, b.key); }
    }
  }

  lemma {:induction false} RowsInRange(table: Table, keys: set<seq<Byte>>, prefix: seq<Byte>) returns (rows: seq<Row>)
    requires keys <= table.Keys
    ensures Distinct(rows)
    ensures forall r :: r in rows <==> r.key in keys && InScan(prefix, r.key) && table[r.key] == r.value
    decreases keys
  {
    if keys == {} {
      rows := [];
    } else {
      var k :| k in keys;
      var rest := RowsInRange(table, keys - {k}, prefix);
      rows := if InScan(prefix, k) then rest + [Row(k, table[k])] else rest;
    }
  }

  // ---- Decoding and checking ----

  /** Row `i` of the scan as an entry: its key, its value and its own position must all say `i`. */
  function DecodeRow(x: Codec, row: Row, i: nat): Option<SignedEntry> {
    match SeqFromKeyBytes(row.key)
    case None => None
    case Some(n) =>
      if n != i then None
      else match x.decEntry(row.value)
        case None => None
        case Some(e) => if e.seqNo != i then None else Some(e)
  }

  function DecodeFrom(x: Codec, rows: seq<Row>, i: nat): (r: Result<seq<SignedEntry>, AuditError>)
    requires i <= |rows|
    ensures r.Ok? ==> |r.value| == |rows| - i
    decreases |rows| - i
  {
    if i == |rows| then Ok([])
    else match DecodeRow(x, rows[i], i)
      case None => Err(CorruptStoredEntry(i))
      case Some(e) =>
        match DecodeFrom(x, rows, i + 1)
        case Err(err) => Err(err)
        case Ok(es) => Ok([e] + es)
  }

  function Replayed(c: Primitives, key: seq<Byte>, es: seq<SignedEntry>): Result<seq<SignedEntry>, AuditError> {
    match Verdict(c, key, es, 0)
    case Err(err) => Err(err)
    case Ok(_) => Ok(es)
  }

  function Decoded(c: Primitives, key: seq<Byte>, x: Codec, rows: seq<Row>): Result<seq<SignedEntry>, AuditError> {
    match DecodeFrom(x, rows, 0)
    case Err(err) => Err(err)
    case Ok(es) => Replayed(c, key, es)
  }

  /** An absent anchor is no news; an unreadable one is an error. */
  function ReadAnchor(x: Codec, table: Table): Result<Option<ChainAnchor>, AuditError> {
    if CHAIN_ANCHOR_KEY !in table then Ok(None)
    else match x.decAnchor(table[CHAIN_ANCHOR_KEY])
      case None => Err(Storage)
      case Some(a) => Ok(Some(a))
  }

  function CheckTailAnchor(x: Codec, table: Table, es: seq<SignedEntry>): Result<(), AuditError> {
    match ReadAnchor(x, table)
    case Err(err) => Err(err)
    case Ok(None) => Ok(())
    case Ok(Some(a)) =>
      if es == [] then Err(TailTruncated(a.lastSeq, None))
      else
        var last := es[|es| - 1];
        if last.seqNo < a.lastSeq then Err(TailTruncated(a.lastSeq, Some(last.seqNo)))
        else if last.seqNo == a.lastSeq && last.mac != a.lastMac then Err(TailTruncated(a.lastSeq, Some(last.seqNo)))
        else Ok(())
  }

  /** The outcome of the whole pipeline on a table whose scan is `rows`. */
  function Recovered(c: Primitives, key: seq<Byte>, x: Codec, table: Table, rows: seq<Row>): Result<seq<SignedEntry>, AuditError> {
    match Decoded(c, key, x, rows)
    case Err(err) => Err(err)
    case Ok(es) =>
      match CheckTailAnchor(x, table, es)
      case Err(err) => Err(err)
      case Ok(_) => Ok(es)
  }

  /** The standalone replay of the chain over decoded entries: the same verdict as the log's own. */
  method VerifyEntriesExternal(c: Primitives, key: seq<Byte>, es: seq<SignedEntry>) returns (r: Result<(), AuditError>)
    ensures r == Verdict(c, key, es, 0)
  {
    var expectedPrev: Mac := GENESIS;
    for i := 0 to |es|
      invariant expectedPrev == HeadMac(es[..i])
      invariant Verdict(c, key, es, 0) == Verdict(c, key, es, i)
    {
      if es[i].seqNo != i {
        return Err(ChainBroken(i, WrongSeq(es[i].seqNo)));
      }
      if es[i].prevMac != expectedPrev {
        return Err(ChainBroken(es[i].seqNo, PrevMacMismatch));
      }
      var bytes := c.canon(es[i].event);
      if bytes.None? {
        return Err(Serialize);
      }
      if c.hmac(key, expectedPrev + bytes.value) != es[i].mac {
        return Err(ChainBroken(es[i].seqNo, MacMismatch));
      }
      expectedPrev := es[i].mac;
    }
    r := Ok(());
  }

  method DecodeAndValidateRows(c: Primitives, key: seq<Byte>, x: Codec, rows: seq<Row>) returns (r: Result<seq<SignedEntry>, AuditError>)
    ensures r == Decoded(c, key, x, rows)
  {
    var es: seq<SignedEntry> := [];
    assert DecodeFrom(x, rows, 0).Ok? ==> es + DecodeFrom(x, rows, 0).value == DecodeFrom(x, rows, 0).value;
    for i := 0 to |rows|
      invariant match DecodeFrom(x, rows, i)
                case Err(err) => DecodeFrom(x, rows, 0) == Err(err)
                case Ok(rest) => DecodeFrom(x, rows, 0) == Ok(es + rest)
    {
      var n := SeqFromKeyBytes(rows[i].key);
      if n.None? || n.value != i {
        return Err(CorruptStoredEntry(i));
      }
      var e := x.decEntry(rows[i].value);
      if e.None? || e.value.seqNo != i {
        return Err(CorruptStoredEntry(i));
      }
      ghost var rest := DecodeFrom(x, rows, i + 1);
      if rest.Ok? {
        assert es + ([e.value] + rest.value) == es + [e.value] + rest.value;
      }
      es := es + [e.value];
    }
    assert es + [] == es;
    var v := VerifyEntriesExternal(c, key, es);
    r := if v.Ok? then Ok(es) else Err(v.error);
  }

  /**
    Open a log over a table. `rows` is what the store's scan returned. The
    outcome is the pipeline's: the second `verify` never adds a refusal.
  */
  method Open(c: Primitives, key: seq<Byte>, x: Codec, table: Table, rows: seq<Row>) returns (r: Result<HmacChainLog, AuditError>)
    ensures match Recovered(c, key, x, table, rows)
            case Err(err) => r == Err(err)
            case Ok(es) => r.Ok? && fresh(r.value) && r.value.c == c && r.value.key == key && r.value.entries == es
  {
    var entries := DecodeAndValidateRows(c, key, x, rows);
    if entries.Err? {
      return Err(entries.error);
    }
    var tail := CheckTailAnchor(x, table, entries.value);
    if tail.Err? {
      return Err(tail.error);
    }
    var log := new HmacChainLog.FromVerifiedEntries(c, key, entries.value);
    var again := log.Verify();
    r := match again case Ok(_) => Ok(log) case Err(err) => Err(err);
  }

  // ---- Which stores open ----

  /** The table's entry rows are those of `es`, keyed 0, 1, 2, ... and nothing else. */
  ghost predicate Holds(x: Codec, table: Table, es: seq<SignedEntry>) {
    && |es| <= TWO_64
    && (forall k :: k in table && AUDIT_KEY_PREFIX <= k ==>
          SeqFromKeyBytes(k).Some? && SeqFromKeyBytes(k).value < |es|)
    && (forall i :: 0 <= i < |es| ==>
          AuditKey(i) in table && x.decEntry(table[AuditKey(i)]) == Some(es[i]))
  }

  function EntryRow(table: Table, i: nat): Row {
    Row(AuditKey(i), if AuditKey(i) in table then table[AuditKey(i)] else [])
  }

  lemma HeldRows(x: Codec, table: Table, rows: seq<Row>, es: seq<SignedEntry>)
    requires IsScan(table, AUDIT_KEY_PREFIX, rows) && Holds(x, table, es)
    ensures rows == seq(|es|, i requires 0 <= i < |es| => EntryRow(table, i))
  {
    var listed := seq(|es|, i requires 0 <= i < |es| => EntryRow(table, i));
    forall i, j | 0 <= i < j < |es| ensures KeyLt(listed[i], listed[j]) {
      AuditKeyOrder(i, j);
    }
    forall r ensures r in listed <==> InScan(AUDIT_KEY_PREFIX, r.key) && r.key in table && table[r.key] == r.value {
      ScanRangeIsPrefix(AUDIT_KEY_PREFIX, r.key);
      if InScan(AUDIT_KEY_PREFIX, r.key) && r.key in table && table[r.key] == r.value {
        AuditKeyFromSeq(r.key);
        assert r == listed[SeqFromKeyBytes(r.key).value];
      }
    }
    ScanUnique(table, AUDIT_KEY_PREFIX, rows, listed);
  }

  lemma {:induction false} HeldRowsDecode(x: Codec, table: Table, rows: seq<Row>, es: seq<SignedEntry>, from: nat)
    requires Holds(x, table, es) && (forall i :: 0 <= i < |es| ==> es[i].seqNo == i)
    requires rows == seq(|es|, i requires 0 <= i < |es| => EntryRow(table, i))
    requires from <= |es|
    ensures DecodeFrom(x, rows, from) == Ok(es[from..])
    decreases |es| - from
  {
    if from < |es| {
      SeqFromAuditKey(from);
      HeldRowsDecode(x, table, rows, es, from + 1);
      assert es[from..] == [es[from]] + es[from + 1..];
    }
  }

  lemma {:induction false} DecodedRows(x: Codec, rows: seq<Row>, from: nat)
    requires from <= |rows| && DecodeFrom(x, rows, from).Ok?
    ensures forall i | from <= i < |rows| ::
              DecodeRow(x, rows[i], i) == Some(DecodeFrom(x, rows, from).value[i - from])
    decreases |rows| - from
  {
    if from < |rows| {
      DecodedRows(x, rows, from + 1);
    }
  }

  /** The pipeline before the anchor check accepts exactly the tables that hold a valid chain, and returns it. */
  lemma DecodesExactly(c: Primitives, key: seq<Byte>, x: Codec, table: Table, rows: seq<Row>, es: seq<SignedEntry>)
    requires IsScan(table, AUDIT_KEY_PREFIX, rows)
    ensures Decoded(c, key, x, rows) == Ok(es) <==> Holds(x, table, es) && Accepts(c, key, es)
  {
    if Holds(x, table, es) && Accepts(c, key, es) {
      forall i | 0 <= i < |es| ensures es[i].seqNo == i {
        assert Intact(c, key, es, i);
      }
      HeldRows(x, table, rows, es);
      HeldRowsDecode(x, table, rows, es, 0);
    }
    if Decoded(c, key, x, rows) == Ok(es) {
      DecodedRows(x, rows, 0);
      if |es| > TWO_64 { PositionFits(x, rows[TWO_64], TWO_64); }
      forall i | 0 <= i < |es|
        ensures rows[i].key == AuditKey(i)
        ensures AuditKey(i) in table && x.decEntry(table[AuditKey(i)]) == Some(es[i])
      {
        assert DecodeRow(x, rows[i], i) == Some(es[i]);
        AuditKeyFromSeq(rows[i].key);
        assert rows[i] in rows;
      }
      forall k | k in table && AUDIT_KEY_PREFIX <= k
        ensures SeqFromKeyBytes(k).Some? && SeqFromKeyBytes(k).value < |es|
      {
        ScanRangeIsPrefix(AUDIT_KEY_PREFIX, k);
        assert Row(k, table[k]) in rows;
        var i :| 0 <= i < |rows| && rows[i] == Row(k, table[k]);
        PositionFits(x, rows[i], i);
        SeqFromAuditKey(i);
      }
    }
  }

  lemma PositionFits(x: Codec, row: Row, i: nat)
    ensures DecodeRow(x, row, i).Some? ==> i < TWO_64
  {
    if SeqFromKeyBytes(row.key).Some? { AuditKeyFromSeq(row.key); }
  }

  /**
    Opening succeeds with `es` exactly when the table holds the valid chain
    `es` and, if there is an anchor at all, it can be read and lies before the
    last entry or names the last entry with that entry's tag.
  */
  lemma OpensExactly(c: Primitives, key: seq<Byte>, x: Codec, table: Table, rows: seq<Row>, es: seq<SignedEntry>)
    requires IsScan(table, AUDIT_KEY_PREFIX, rows)
    ensures Recovered(c, key, x, table, rows) == Ok(es) <==>
            && Holds(x, table, es) && Accepts(c, key, es)
            && (CHAIN_ANCHOR_KEY in table ==>
                  match x.decAnchor(table[CHAIN_ANCHOR_KEY])
                  case None => false
                  case Some(a) =>
                    && es != []
                    && (a.lastSeq < |es| - 1 || (a.lastSeq == |es| - 1 && a.lastMac == HeadMac(es))))
  {
    DecodesExactly(c, key, x, table, rows, es);
    if es != [] && Accepts(c, key, es) { assert Intact(c, key, es, |es| - 1); }
  }

  /** What a table with a valid chain is refused for: its anchor is unreadable, or the tail is behind it. */
  lemma RefusedForItsAnchor(c: Primitives, key: seq<Byte>, x: Codec, table: Table, rows: seq<Row>, es: seq<SignedEntry>)
    requires IsScan(table, AUDIT_KEY_PREFIX, rows)
    requires Holds(x, table, es) && Accepts(c, key, es) && CHAIN_ANCHOR_KEY in table
    ensures match x.decAnchor(table[CHAIN_ANCHOR_KEY])
            case None => Recovered(c, key, x, table, rows) == Err(Storage)
            case Some(a) =>
              && (es == [] ==> Recovered(c, key, x, table, rows) == Err(TailTruncated(a.lastSeq, None)))
              && (es != [] && (a.lastSeq > |es| - 1 || (a.lastSeq == |es| - 1 && a.lastMac != HeadMac(es))) ==>
                    Recovered(c, key, x, table, rows) == Err(TailTruncated(a.lastSeq, Some(|es| - 1))))
  {
    DecodesExactly(c, key, x, table, rows, es);
    if es != [] { assert Intact(c, key, es, |es| - 1); }
  }

  /** Row `i` is keyed by its position and holds an entry of that number. */
  ghost predicate GoodRow(x: Codec, row: Row, i: nat) {
    i < TWO_64 && row.key == AuditKey(i) && exists e :: x.decEntry(row.value) == Some(e) && e.seqNo == i
  }

  /** Before the chain is looked at, the first row that is not one is what opening reports, whatever the anchor says. */
  lemma FirstBadRowReported(c: Primitives, key: seq<Byte>, x: Codec, table: Table, rows: seq<Row>, i: nat)
    requires i < |rows| && !GoodRow(x, rows[i], i) && forall j :: 0 <= j < i ==> GoodRow(x, rows[j], j)
    ensures Recovered(c, key, x, table, rows) == Err(CorruptStoredEntry(i))
  {
    BadRowFrom(x, rows, 0, i);
  }

  lemma {:induction false} BadRowFrom(x: Codec, rows: seq<Row>, from: nat, i: nat)
    requires from <= i < |rows| && !GoodRow(x, rows[i], i) && forall j :: from <= j < i ==> GoodRow(x, rows[j], j)
    ensures DecodeFrom(x, rows, from) == Err(CorruptStoredEntry(i))
    decreases i - from
  {
    GoodRowDecodes(x, rows[from], from);
    if from < i { BadRowFrom(x, rows, from + 1, i); }
  }

  lemma GoodRowDecodes(x: Codec, row: Row, i: nat)
    ensures DecodeRow(x, row, i).Some? <==> GoodRow(x, row, i)
  {
    if SeqFromKeyBytes(row.key).Some? { AuditKeyFromSeq(row.key); }
    if i < TWO_64 { SeqFromAuditKey(i); }
  }

  lemma AnchorOutsideScan(n: nat)
    ensures !InScan(AUDIT_KEY_PREFIX, CHAIN_ANCHOR_KEY)
    ensures AuditKey(n) != CHAIN_ANCHOR_KEY
  {
    ScanRangeIsPrefix(AUDIT_KEY_PREFIX, CHAIN_ANCHOR_KEY);
  }

  // ---- What the drain task's writes do to a table ----

  lemma RowPutHolds(x: Codec, table: Table, es: seq<SignedEntry>, e: SignedEntry, value: seq<Byte>)
    requires Holds(x, table, es) && |es| < TWO_64
    requires x.decEntry(value) == Some(e)
    ensures Holds(x, table[AuditKey(|es|) := value], es + [e])
    ensures ReadAnchor(x, table[AuditKey(|es|) := value]) == ReadAnchor(x, table)
  {
    var table', es' := table[AuditKey(|es|) := value], es + [e];
    SeqFromAuditKey(|es|);
    forall i | 0 <= i < |es'|
      ensures AuditKey(i) in table' && x.decEntry(table'[AuditKey(i)]) == Some(es'[i])
    {
      SeqFromAuditKey(i);
    }
    AnchorOutsideScan(|es|);
  }

  /** The anchor's key has no entry's shape, whatever it holds. */
  lemma AnchorIsNoEntry()
    ensures !(AUDIT_KEY_PREFIX <= CHAIN_ANCHOR_KEY) && SeqFromKeyBytes(CHAIN_ANCHOR_KEY).None?
  {
    assert AUDIT_KEY_PREFIX[0] != CHAIN_ANCHOR_KEY[0];
  }

  lemma AnchorPutHolds(x: Codec, table: Table, es: seq<SignedEntry>, value: seq<Byte>)
    requires Holds(x, table, es)
    ensures Holds(x, table[CHAIN_ANCHOR_KEY := value], es)
  {
    var table' := table[CHAIN_ANCHOR_KEY := value];
    AnchorIsNoEntry();
    hide AuditKey, SeqFromKeyBytes;
    forall k | k in table' && AUDIT_KEY_PREFIX <= k
      ensures SeqFromKeyBytes(k).Some? && SeqFromKeyBytes(k).value < |es|
    {
      assert k != CHAIN_ANCHOR_KEY && k in table;
    }
    forall i | 0 <= i < |es| ensures AuditKey(i) in table' && table'[AuditKey(i)] == table[AuditKey(i)] {
      AnchorOutsideScan(i);
    }
  }

  predicate IsDropped(k: seq<Byte>, n: nat, t: nat) {
    SeqFromKeyBytes(k).Some? && n - t <= SeqFromKeyBytes(k).value < n
  }

  /** The table of `n` entry rows without the last `t` of them. */
  function Truncated(table: Table, n: nat, t: nat): Table {
    map k | k in table && !IsDropped(k, n, t) :: table[k]
  }

  lemma TruncatedHolds(x: Codec, table: Table, es: seq<SignedEntry>, t: nat)
    requires Holds(x, table, es) && t <= |es|
    ensures Holds(x, Truncated(table, |es|, t), es[..|es| - t])
    ensures ReadAnchor(x, Truncated(table, |es|, t)) == ReadAnchor(x, table)
  {
    forall i | 0 <= i < |es| - t ensures AuditKey(i) in Truncated(table, |es|, t) {
      SeqFromAuditKey(i);
    }
    assert SeqFromKeyBytes(CHAIN_ANCHOR_KEY).None?;
  }
}
