/**
  How an approval request is shown: disguising characters become visible
  escapes, long values are cut with a count, and every argument gets a line.
*/
module Display {
  import opened Wrappers
  import opened Sorting
  import opened Text
  import opened Numerals

  // ---- Padded hexadecimal ----

  function Zeros(k: nat): (s: string)
    ensures |s| == k && forall i :: 0 <= i < k ==> s[i] == '0'
  {
    if k == 0 then "" else Zeros(k - 1) + "0"
  }

  /** `{:04x}` */
  function Hex4(n: nat): string {
    var d := Digits(n, 16);
    if |d| < 4 then Zeros(4 - |d|) + d else d
  }

  lemma {:induction false} LeadingZeros(z: string, s: string, b: Radix)
    requires forall i :: 0 <= i < |z| ==> z[i] == '0'
    ensures ValueOf(z + s, b) == ValueOf(s, b)
  {
    if s != "" {
      assert z + s == (z + s[..|s| - 1]) + [s[|s| - 1]];
      LeadingZeros(z, s[..|s| - 1], b);
      ValueOfSnoc(z + s[..|s| - 1], s[|s| - 1], b);
    } else if z != "" {
      assert z + s == (z[..|z| - 1] + s) + ['0'];
      LeadingZeros(z[..|z| - 1], "", b);
      ValueOfSnoc(z[..|z| - 1] + s, '0', b);
    }
  }

  lemma HexRestores(n: nat)
    ensures ValueOf(Hex4(n), 16) == n
    ensures forall c :: c in Hex4(n) ==> IsDigit(c)
  {
    ValueOfDigits(n, 16);
    if |Digits(n, 16)| < 4 { LeadingZeros(Zeros(4 - |Digits(n, 16)|), Digits(n, 16), 16); }
  }

  // ---- Escapes ----

  /** Which characters can hide, reorder or fake text on screen, beyond what escapes are written with. */
  datatype Screen = Screen(disguise: char -> bool) {
    ghost predicate Sound() {
      forall c :: c == '\\' || c == 'n' || c == 'r' || c == 't' || c == 'u' || c == '{' || c == '}' || IsDigit(c)
        ==> !disguise(c)
    }
  }

  function Escape(s: Screen, c: char): string {
    if c == '\\' then "\\\\"
    else if c == '\n' then "\\n"
    else if c == '\r' then "\\r"
    else if c == '\t' then "\\t"
    else if s.disguise(c) then "\\u{" + Hex4(c as nat) + "}"
    else [c]
  }

  function Neutralised(s: Screen, text: string): string {
    if text == "" then "" else Escape(s, text[0]) + Neutralised(s, text[1..])
  }

  method Neutralise(s: Screen, text: string) returns (out: string)
    ensures out == Neutralised(s, text)
  {
    out := "";
    for i := 0 to |text|
      invariant out + Neutralised(s, text[i..]) == Neutralised(s, text)
    {
      assert text[i..][1..] == text[i + 1..];
      out := out + Escape(s, text[i]);
    }
  }

  predicate IsScalar(n: nat) {
    n < 0xD800 || 0xE000 <= n < 0x11_0000
  }

  /** Reads the escapes back. */
  function Restore(s: string): string
    decreases |s|
  {
    if s == "" then ""
    else if s[0] != '\\' || |s| == 1 then [s[0]] + Restore(s[1..])
    else if s[1] == 'n' then "\n" + Restore(s[2..])
    else if s[1] == 'r' then "\r" + Restore(s[2..])
    else if s[1] == 't' then "\t" + Restore(s[2..])
    else if s[1] == 'u' && |s| > 3 && IndexOf(s[3..], '}') < |s| - 3 then
      var i := IndexOf(s[3..], '}');
      var n := ValueOf(s[3..][..i], 16);
      (if IsScalar(n) then [n as char] else "") + Restore(s[3..][i + 1..])
    else [s[1]] + Restore(s[2..])
  }

  lemma RestoresOne(s: Screen, c: char, rest: string)
    ensures Restore(Escape(s, c) + rest) == [c] + Restore(rest)
  {
    var t := Escape(s, c) + rest;
    if c == '\\' || c == '\n' || c == '\r' || c == '\t' {
      assert t[2..] == rest;
    } else if s.disguise(c) {
      HexRestores(c as nat);
      RestoresHex(Hex4(c as nat), rest);
      assert t == "\\u{" + Hex4(c as nat) + "}" + rest;
    } else {
      assert t[1..] == rest;
    }
  }

  lemma RestoresHex(h: string, rest: string)
    requires (forall c :: c in h ==> IsDigit(c)) && IsScalar(ValueOf(h, 16))
    ensures Restore("\\u{" + h + "}" + rest) == [ValueOf(h, 16) as char] + Restore(rest)
  {
    hide ValueOf;
    var body := h + ("}" + rest);
    var t := "\\u{" + h + "}" + rest;
    assert t[3..] == body && t[0] == '\\' && t[1] == 'u';
    IndexAtEndOf(h, "}" + rest, '}');
    assert body[..|h|] == h && body[|h| + 1..] == rest;
  }

  /** What is shown can be read back: nothing typed can pass for something else. */
  lemma {:induction false} RestoreUndoesNeutralise(s: Screen, text: string)
    ensures Restore(Neutralised(s, text)) == text
  {
    if text != "" {
      RestoresOne(s, text[0], Neutralised(s, text[1..]));
      RestoreUndoesNeutralise(s, text[1..]);
    }
  }

  lemma NeutraliseInjective(s: Screen, a: string, b: string)
    requires Neutralised(s, a) == Neutralised(s, b)
    ensures a == b
  {
    RestoreUndoesNeutralise(s, a);
    RestoreUndoesNeutralise(s, b);
  }

  /** Text without special characters is shown as it is. */
  lemma {:induction false} PlainTextIsUnchanged(s: Screen, text: string)
    requires forall c :: c in text ==> !s.disguise(c) && c != '\\' && c != '\n' && c != '\r' && c != '\t'
    ensures Neutralised(s, text) == text
  {
    if text != "" {
      assert text == [text[0]] + text[1..] && text[0] in text;
      assert forall c :: c in text[1..] ==> c in text;
      PlainTextIsUnchanged(s, text[1..]);
      assert Escape(s, text[0]) == [text[0]];
    }
  }

  lemma OneEscape(s: Screen, c: char)
    ensures c == '\\' ==> Neutralised(s, [c]) == ['\\', '\\']
    ensures c == '\n' ==> Neutralised(s, [c]) == ['\\', 'n']
    ensures c == '\r' ==> Neutralised(s, [c]) == ['\\', 'r']
    ensures c == '\t' ==> Neutralised(s, [c]) == ['\\', 't']
    ensures c != '\\' && c != '\n' && c != '\r' && c != '\t' && s.disguise(c) ==>
              exists h :: Neutralised(s, [c]) == ['\\', 'u', '{'] + h + ['}'] && IsHex4(h, c as nat)
  {
    assert [c][1..] == "" && Neutralised(s, "") == "" && Neutralised(s, [c]) == Escape(s, c) + "";
    assert Neutralised(s, [c]) == Escape(s, c);
    hide Neutralised;
    Hex4IsHex4(c as nat);
    hide Hex4, IsHex4;
    assert "\\\\" == ['\\', '\\'] && "\\n" == ['\\', 'n'] && "\\r" == ['\\', 'r'] && "\\t" == ['\\', 't'];
    assert "\\u{" == ['\\', 'u', '{'] && "}" == ['}'];
  }

  /** One character more, one escape more: a backslash and a letter, or the code point in at least four hexadecimal digits. */
  lemma {:induction false} NeutralisedSnoc(s: Screen, text: string, c: char)
    ensures Neutralised(s, text + [c]) == Neutralised(s, text) + Neutralised(s, [c])
    ensures c == '\\' ==> Neutralised(s, [c]) == ['\\', '\\']
    ensures c == '\n' ==> Neutralised(s, [c]) == ['\\', 'n']
    ensures c == '\r' ==> Neutralised(s, [c]) == ['\\', 'r']
    ensures c == '\t' ==> Neutralised(s, [c]) == ['\\', 't']
    ensures c != '\\' && c != '\n' && c != '\r' && c != '\t' && s.disguise(c) ==>
              exists h :: Neutralised(s, [c]) == ['\\', 'u', '{'] + h + ['}'] && IsHex4(h, c as nat)
  {
    OneEscape(s, c);
    hide Escape, IsHex4;
    if text == "" {
      assert text + [c] == [c];
    } else {
      assert (text + [c])[1..] == text[1..] + [c];
      NeutralisedSnoc(s, text[1..], c);
    }
  }

  /** `h` writes `n` in hexadecimal with at least four digits and no zero in front of a longer number. */
  predicate IsHex4(h: string, n: nat) {
    && (forall c :: c in h ==> IsDigit(c))
    && ValueOf(h, 16) == n && |h| >= 4 && (|h| > 4 ==> h[0] != '0')
  }

  lemma Hex4IsHex4(n: nat)
    ensures IsHex4(Hex4(n), n)
  {
    HexRestores(n);
    NoLeadingZero(n, 16);
  }

  lemma {:induction false} NoLeadingZero(n: nat, b: Radix)
    ensures n > 0 ==> Digits(n, b)[0] != '0'
    ensures n == 0 ==> Digits(n, b) == "0"
  {
    if n >= b {
      DivMod(n, b);
      NoLeadingZero(n / b, b);
    }
  }

  predicate Harmless(s: Screen, text: string) {
    forall c :: c in text ==> !s.disguise(c) && c != '\n' && c != '\r' && c != '\t'
  }

  lemma {:induction false} NothingDisguised(s: Screen, text: string)
    requires s.Sound()
    ensures Harmless(s, Neutralised(s, text))
  {
    if text != "" {
      EscapeIsHarmless(s, text[0]);
      NothingDisguised(s, text[1..]);
    }
  }

  lemma EscapeIsHarmless(s: Screen, c: char)
    requires s.Sound()
    ensures Harmless(s, Escape(s, c))
  {
    ShortEscapeIsHarmless(s, '\\');
    ShortEscapeIsHarmless(s, 'n');
    ShortEscapeIsHarmless(s, 'r');
    ShortEscapeIsHarmless(s, 't');
    HexEscapeIsHarmless(s, c as nat);
    if c != '\\' && c != '\n' && c != '\r' && c != '\t' && !s.disguise(c) { OneIsHarmless(s, c); }
    hide Hex4, Harmless;
    assert "\\\\" == ['\\', '\\'] && "\\n" == ['\\', 'n'] && "\\r" == ['\\', 'r'] && "\\t" == ['\\', 't'];
  }

  lemma OneIsHarmless(s: Screen, c: char)
    requires !s.disguise(c) && c != '\n' && c != '\r' && c != '\t'
    ensures Harmless(s, [c])
  {
  }

  lemma ShortEscapeIsHarmless(s: Screen, x: char)
    requires s.Sound() && (x == '\\' || x == 'n' || x == 'r' || x == 't')
    ensures Harmless(s, ['\\', x])
  {
  }

  lemma HexEscapeIsHarmless(s: Screen, n: nat)
    requires s.Sound()
    ensures Harmless(s, "\\u{" + Hex4(n) + "}")
  {
    HexRestores(n);
    hide Hex4, Digits;
    var start := ['\\', 'u', '{'];
    assert "\\u{" == start && forall x :: x in start ==> !s.disguise(x) && x != '\n' && x != '\r' && x != '\t';
  }

  // ---- Cutting ----

  function Clip(s: Screen, text: string, max: nat): (string, nat) {
    if |text| <= max then (Neutralised(s, text), 0)
    else (Neutralised(s, text[..max]), |text| - max)
  }

  /** Read back, a clipped value is the start of the text, as long as allowed, and what is hidden is the rest. */
  lemma ClipLaw(s: Screen, text: string, max: nat)
    ensures var (shown, hidden) := Clip(s, text, max);
      var start := Restore(shown);
      start <= text && |start| + hidden == |text| && |start| <= max && (hidden > 0 ==> |start| == max)
  {
    RestoreUndoesNeutralise(s, text);
    if |text| > max { RestoreUndoesNeutralise(s, text[..max]); }
  }

  // ---- The count of what is hidden ----

  predicate CommaBefore(n: nat, i: nat) {
    0 < i <= n && (n - i) % 3 == 0
  }

  /** The first `i` of `d`'s digits, with the commas a number of `n` digits has among them. */
  function GroupedFrom(d: string, n: nat, i: nat): string
    requires i <= |d|
  {
    if i == 0 then ""
    else GroupedFrom(d, n, i - 1) + (if CommaBefore(n, i - 1) then "," else "") + [d[i - 1]]
  }

  /** Thousands, from the right. */
  function Thousands(d: string): string {
    if |d| <= 3 then d else Thousands(d[..|d| - 3]) + "," + d[|d| - 3..]
  }

  lemma {:induction false} SameCommas(d: string, i: nat)
    requires 3 < |d| && i <= |d| - 3
    ensures GroupedFrom(d, |d|, i) == GroupedFrom(d[..|d| - 3], |d| - 3, i)
  {
    if i > 0 {
      SameCommas(d, i - 1);
      CommaShift(|d|, i - 1);
      hide CommaBefore;
    }
  }

  lemma CommaShift(n: nat, i: nat)
    requires n > 3 && i < n - 3
    ensures CommaBefore(n, i) == CommaBefore(n - 3, i)
  {
  }

  lemma {:induction false} GroupsAreThousands(d: string)
    ensures GroupedFrom(d, |d|, |d|) == Thousands(d)
  {
    var n := |d|;
    if n <= 3 {
      PlainRun(d, n, 0, n);
    } else {
      SameCommas(d, n - 3);
      GroupsAreThousands(d[..n - 3]);
      var head := GroupedFrom(d, n, n - 3);
      LastGroup(d);
    }
  }

  lemma LastGroup(d: string)
    requires |d| > 3
    ensures GroupedFrom(d, |d|, |d|) == GroupedFrom(d, |d|, |d| - 3) + "," + d[|d| - 3..]
  {
    hide GroupedFrom;
    var n := |d|;
    LastCommas(n);
    hide CommaBefore;
    CommaStep(d, n, n - 3);
    PlainRun(d, n, n - 2, n);
    var g, x, y := GroupedFrom(d, n, n - 3), [d[n - 3]], d[n - 2..n];
    assert GroupedFrom(d, n, n - 2) == g + "," + x;
    assert GroupedFrom(d, n, n) == g + "," + x + y;
    LastThree(d);
    Associate(g + ",", x, y);
  }

  lemma LastCommas(n: nat)
    requires n > 3
    ensures CommaBefore(n, n - 3) && forall k :: n - 2 <= k < n ==> !CommaBefore(n, k)
  {
  }

  lemma LastThree(d: string)
    requires |d| > 3
    ensures d[|d| - 3..] == [d[|d| - 3]] + d[|d| - 2..|d|]
  {
  }

  lemma CommaStep(d: string, n: nat, i: nat)
    requires i < |d| && CommaBefore(n, i)
    ensures GroupedFrom(d, n, i + 1) == GroupedFrom(d, n, i) + "," + [d[i]]
  {
  }

  lemma {:induction false} PlainRun(d: string, n: nat, i: nat, j: nat)
    requires i <= j <= |d| && forall k :: i <= k < j ==> !CommaBefore(n, k)
    ensures GroupedFrom(d, n, j) == GroupedFrom(d, n, i) + d[i..j]
  {
    if i < j {
      PlainRun(d, n, i, j - 1);
      assert d[i..j] == d[i..j - 1] + [d[j - 1]];
    }
  }

  function WithoutCommas(s: string): string {
    if s == "" then "" else (if s[0] == ',' then "" else [s[0]]) + WithoutCommas(s[1..])
  }

  lemma {:induction false} WithoutCommasSplits(a: string, b: string)
    ensures WithoutCommas(a + b) == WithoutCommas(a) + WithoutCommas(b)
  {
    if a == "" {
      assert a + b == b;
    } else {
      assert (a + b)[1..] == a[1..] + b;
      WithoutCommasSplits(a[1..], b);
    }
  }

  lemma {:induction false} NoCommas(a: string)
    requires ',' !in a
    ensures WithoutCommas(a) == a
  {
    if a != "" {
      NoCommas(a[1..]);
      assert a == [a[0]] + a[1..];
    }
  }

  lemma {:induction false} ThousandsReadBack(d: string)
    requires ',' !in d
    ensures WithoutCommas(Thousands(d)) == d
  {
    if |d| <= 3 {
      NoCommas(d);
    } else {
      var h, t := d[..|d| - 3], d[|d| - 3..];
      ThousandsReadBack(h);
      NoCommas(t);
      OneComma(Thousands(h), t);
      hide WithoutCommas;
      assert d == h + t;
    }
  }

  lemma OneComma(a: string, b: string)
    ensures WithoutCommas(a + "," + b) == WithoutCommas(a) + WithoutCommas(b)
  {
    assert WithoutCommas(",") == "";
    hide WithoutCommas;
    WithoutCommasSplits(a + ",", b);
    WithoutCommasSplits(a, ",");
    assert WithoutCommas(a) + "" == WithoutCommas(a);
  }

  function Counted(hidden: nat): string {
    "\U{2026} " + Thousands(Digits(hidden, 10)) + " more characters hidden"
  }

  method HiddenNote(hidden: nat) returns (note: string)
    ensures note == Counted(hidden)
  {
    var digits := Digits(hidden, 10);
    var grouped := "";
    for i := 0 to |digits|
      invariant grouped == GroupedFrom(digits, |digits|, i)
    {
      if i > 0 && (|digits| - i) % 3 == 0 {
        grouped := grouped + ",";
      }
      grouped := grouped + [digits[i]];
    }
    GroupsAreThousands(digits);
    note := "\U{2026} " + grouped + " more characters hidden";
  }

  /** The note says the true number: dropping its commas and reading the decimal gives it back. */
  lemma NoteIsTrue(hidden: nat)
    ensures ValueOf(WithoutCommas(Thousands(Digits(hidden, 10))), 10) == hidden
  {
    ValueOfDigits(hidden, 10);
    ThousandsReadBack(Digits(hidden, 10));
  }

  // ---- The whole request ----

  /** An argument. `written` is its JSON text. */
  datatype Json =
    | Str(text: string)
    | Strings(items: seq<string>)
    | Object(fields: seq<(string, Json)>, written: string)
    | Other(written: string)

  function Join(parts: seq<string>, sep: string): string {
    if parts == [] then ""
    else if |parts| == 1 then parts[0]
    else Join(parts[..|parts| - 1], sep) + sep + parts[|parts| - 1]
  }

  function Flat(v: Json): string {
    match v
    case Str(text) => text
    case Strings(items) => Join(items, ", ")
    case Object(_, written) => written
    case Other(written) => written
  }

  function Render(s: Screen, v: Json, perValue: Option<nat>): (string, nat) {
    match perValue
    case Some(max) => Clip(s, Flat(v), max)
    case None => (Neutralised(s, Flat(v)), 0)
  }

  /** How many of a value's characters are left out. */
  function LeftOut(v: Json, perValue: Option<nat>): nat {
    if perValue.Some? && perValue.value < |Flat(v)| then |Flat(v)| - perValue.value else 0
  }

  datatype Row = Row(size: nat, key: string, text: string, hidden: nat)

  function RowOf(s: Screen, perValue: Option<nat>, field: (string, Json)): Row {
    var (text, hidden) := Render(s, field.1, perValue);
    Row(|text| + hidden, field.0, text, hidden)
  }

  function RowsOf(s: Screen, perValue: Option<nat>, fields: seq<(string, Json)>): (rows: seq<Row>)
    ensures |rows| == |fields|
    ensures forall i :: 0 <= i < |fields| ==> rows[i] == RowOf(s, perValue, fields[i])
  {
    if fields == [] then []
    else RowsOf(s, perValue, fields[..|fields| - 1]) + [RowOf(s, perValue, fields[|fields| - 1])]
  }

  /** Short values first, then by key. */
  predicate RowLe(a: Row, b: Row) {
    a.size < b.size || (a.size == b.size && TextLe(a.key, b.key))
  }

  function LineHead(s: Screen, r: Row): string {
    "  " + Neutralised(s, r.key) + ": " + r.text
  }

  function Line(s: Screen, r: Row): string {
    LineHead(s, r) + if r.hidden > 0 then " " + Counted(r.hidden) else ""
  }

  function Lines(s: Screen, rows: seq<Row>): (lines: seq<string>)
    ensures |lines| == |rows| && forall i :: 0 <= i < |rows| ==> lines[i] == Line(s, rows[i])
  {
    if rows == [] then [] else Lines(s, rows[..|rows| - 1]) + [Line(s, rows[|rows| - 1])]
  }

  function Hidden(rows: seq<Row>): nat {
    if rows == [] then 0 else rows[0].hidden + Hidden(rows[1..])
  }

  function TotalLeftOut(fields: seq<(string, Json)>, perValue: Option<nat>): nat {
    if fields == [] then 0
    else TotalLeftOut(fields[..|fields| - 1], perValue) + LeftOut(fields[|fields| - 1].1, perValue)
  }

  /** `shown` reads back as the value's whole text or, where that is longer than allowed, as its first characters; `hidden` is how many are missing. */
  ghost predicate ShowsValue(s: Screen, v: Json, perValue: Option<nat>, shown: string, hidden: nat) {
    var full := match v
      case Str(text) => text
      case Strings(items) => Join(items, ", ")
      case Object(_, written) => written
      case Other(written) => written;
    && hidden == (if perValue.Some? && perValue.value < |full| then |full| - perValue.value else 0)
    && Restore(shown) == full[..|full| - hidden]
    && shown == Neutralised(s, full[..|full| - hidden])
  }

  /** `line` names `key` and shows `row`'s text, with the count of what is hidden after it. */
  ghost predicate ShowsRow(s: Screen, key: string, row: Row, line: string) {
    exists k, n ::
      && Restore(k) == key && k == Neutralised(s, key)
      && ValueOf(WithoutCommas(n), 10) == row.hidden
      && line == "  " + k + ": " + row.text + (if row.hidden > 0 then " \U{2026} " + n + " more characters hidden" else "")
  }

  /**
    What the operator must be able to rely on: a line for each argument that
    shows its key and its value, the shortest values first and equally long
    ones by key, and the true count of what is hidden.
  */
  ghost predicate Describes(s: Screen, fields: seq<(string, Json)>, perValue: Option<nat>, text: string, hidden: nat) {
    && hidden == TotalLeftOut(fields, perValue)
    && if fields == [] then text == ""
       else exists order, rows :: multiset(order) == multiset(fields) && Lists(s, order, perValue, rows, Split(text, '\n'))
  }

  /** The lines are those of the arguments in this order. */
  ghost predicate Lists(s: Screen, order: seq<(string, Json)>, perValue: Option<nat>, rows: seq<Row>, lines: seq<string>) {
    && |lines| == |rows| == |order|
    && (forall i :: 0 <= i < |rows| ==> ShowsRow(s, order[i].0, rows[i], lines[i]))
    && (forall i :: 0 <= i < |rows| ==>
          && ShowsValue(s, order[i].1, perValue, rows[i].text, rows[i].hidden)
          && rows[i].size == |rows[i].text| + rows[i].hidden)
    && (forall i, j :: 0 <= i < j < |rows| ==>
          rows[i].size < rows[j].size || (rows[i].size == rows[j].size && TextLe(order[i].0, order[j].0)))
  }

  lemma AnotherLine(s: Screen, rows: seq<Row>, i: nat)
    requires i < |rows|
    ensures Line(s, rows[i]) != ""
    ensures Join(Lines(s, rows[..i + 1]), "\n") ==
      (if i == 0 then "" else Join(Lines(s, rows[..i]), "\n") + "\n") + Line(s, rows[i])
  {
    assert rows[..i + 1][..i] == rows[..i];
    var lines := Lines(s, rows[..i + 1]);
    assert lines[..i] == Lines(s, rows[..i]) && lines[i] == Line(s, rows[i]);
    hide Lines, Line;
    assert Join(lines, "\n") == (if i == 0 then "" else Join(lines[..i], "\n") + "\n") + lines[i];
  }

  lemma RowLeIsPreorder()
    ensures TotalPreorder(RowLe)
  {
    TextLeIsPreorder();
  }

  lemma {:induction false} HiddenOfInsert(x: Row, s: seq<Row>)
    ensures Hidden(Insert(x, s, RowLe)) == x.hidden + Hidden(s)
  {
    if s != [] && !RowLe(x, s[0]) { HiddenOfInsert(x, s[1..]); }
  }

  lemma {:induction false} HiddenOfSort(s: seq<Row>)
    ensures Hidden(Sort(s, RowLe)) == Hidden(s)
  {
    if s != [] {
      HiddenOfSort(s[1..]);
      HiddenOfInsert(s[0], Sort(s[1..], RowLe));
    }
  }

  lemma {:induction false} HiddenSnoc(s: seq<Row>, x: Row)
    ensures Hidden(s + [x]) == Hidden(s) + x.hidden
  {
    if s != [] {
      assert (s + [x])[1..] == s[1..] + [x];
      HiddenSnoc(s[1..], x);
    }
  }

  lemma {:induction false} HiddenIsLeftOut(s: Screen, perValue: Option<nat>, fields: seq<(string, Json)>)
    ensures Hidden(RowsOf(s, perValue, fields)) == TotalLeftOut(fields, perValue)
  {
    if fields != [] {
      var n := |fields| - 1;
      HiddenIsLeftOut(s, perValue, fields[..n]);
      HiddenSnoc(RowsOf(s, perValue, fields[..n]), RowOf(s, perValue, fields[n]));
    }
  }

  lemma {:induction false} SplitUndoesJoin(parts: seq<string>, c: char)
    requires parts != [] && forall p :: p in parts ==> c !in p
    ensures Split(Join(parts, [c]), c) == parts
  {
    var n := |parts| - 1;
    if n == 0 {
      SplitWithout(parts[0], c);
    } else {
      SplitUndoesJoin(parts[..n], c);
      SplitJoins(Join(parts[..n], [c]), parts[n], c);
      SplitWithout(parts[n], c);
      assert parts == parts[..n] + [parts[n]];
    }
  }

  lemma LineIsOneLine(s: Screen, perValue: Option<nat>, field: (string, Json))
    requires s.Sound()
    ensures '\n' !in Line(s, RowOf(s, perValue, field))
  {
    NothingDisguised(s, field.0);
    NothingDisguised(s, Flat(field.1));
    if perValue.Some? && |Flat(field.1)| > perValue.value { NothingDisguised(s, Flat(field.1)[..perValue.value]); }
    var r := RowOf(s, perValue, field);
    CountedIsOneLine(r.hidden);
  }

  lemma CountedIsOneLine(n: nat)
    ensures '\n' !in Counted(n)
  {
    ThousandsKeep(Digits(n, 10), '\n');
  }

  lemma {:induction false} ThousandsKeep(d: string, c: char)
    requires c !in d && c != ','
    ensures c !in Thousands(d)
  {
    if |d| > 3 { ThousandsKeep(d[..|d| - 3], c); }
  }

  lemma RowsAreOneLine(s: Screen, perValue: Option<nat>, fields: seq<(string, Json)>)
    requires s.Sound()
    ensures forall r :: r in RowsOf(s, perValue, fields) ==> '\n' !in Line(s, r)
  {
    hide Line;
    var rows := RowsOf(s, perValue, fields);
    forall r | r in rows ensures '\n' !in Line(s, r) {
      var j :| 0 <= j < |rows| && rows[j] == r;
      LineIsOneLine(s, perValue, fields[j]);
    }
  }

  lemma SortedRows(rows: seq<Row>)
    ensures var sorted := Sort(rows, RowLe);
      && SortedBy(sorted, RowLe) && Hidden(sorted) == Hidden(rows)
      && multiset(sorted) == multiset(rows) && |sorted| == |rows|
      && forall r :: r in sorted <==> r in rows
  {
    RowLeIsPreorder();
    SortSorted(rows, RowLe);
    HiddenOfSort(rows);
    SameMembers(Sort(rows, RowLe), rows);
  }

  ghost function FieldOrder(s: Screen, perValue: Option<nat>): ((string, Json), (string, Json)) -> bool {
    (a, b) => RowLe(RowOf(s, perValue, a), RowOf(s, perValue, b))
  }

  lemma FieldOrderIs(s: Screen, perValue: Option<nat>, a: (string, Json), b: (string, Json))
    ensures FieldOrder(s, perValue)(a, b) <==> RowLe(RowOf(s, perValue, a), RowOf(s, perValue, b))
  {
    hide RowOf, RowLe;
  }

  lemma RowsOfCons(s: Screen, perValue: Option<nat>, x: (string, Json), fields: seq<(string, Json)>)
    ensures RowsOf(s, perValue, [x] + fields) == [RowOf(s, perValue, x)] + RowsOf(s, perValue, fields)
  {
    hide RowOf, RowsOf;
    var left, right := RowsOf(s, perValue, [x] + fields), [RowOf(s, perValue, x)] + RowsOf(s, perValue, fields);
    assert |left| == |right|;
    forall i | 0 <= i < |left| ensures left[i] == right[i] {
      if i > 0 { assert ([x] + fields)[i] == fields[i - 1]; }
    }
  }

  lemma {:induction false} RowsOfInsert(s: Screen, perValue: Option<nat>, x: (string, Json), fields: seq<(string, Json)>)
    ensures RowsOf(s, perValue, Insert(x, fields, FieldOrder(s, perValue)))
         == Insert(RowOf(s, perValue, x), RowsOf(s, perValue, fields), RowLe)
  {
    hide RowOf, RowLe, FieldOrder, RowsOf;
    var le, rows := FieldOrder(s, perValue), RowsOf(s, perValue, fields);
    if fields == [] {
      RowsOfCons(s, perValue, x, fields);
    } else {
      FieldOrderIs(s, perValue, x, fields[0]);
      assert fields == [fields[0]] + fields[1..];
      RowsOfCons(s, perValue, fields[0], fields[1..]);
      assert rows[1..] == RowsOf(s, perValue, fields[1..]);
      if le(x, fields[0]) {
        RowsOfCons(s, perValue, x, fields);
      } else {
        RowsOfInsert(s, perValue, x, fields[1..]);
        RowsOfCons(s, perValue, fields[0], Insert(x, fields[1..], le));
      }
    }
  }

  /** Sorting the rows is sorting the arguments. */
  lemma {:induction false} RowsOfSort(s: Screen, perValue: Option<nat>, fields: seq<(string, Json)>)
    ensures RowsOf(s, perValue, Sort(fields, FieldOrder(s, perValue))) == Sort(RowsOf(s, perValue, fields), RowLe)
  {
    hide RowOf, RowLe, FieldOrder, RowsOf;
    var rows := RowsOf(s, perValue, fields);
    if fields != [] {
      RowsOfSort(s, perValue, fields[1..]);
      assert fields == [fields[0]] + fields[1..];
      RowsOfCons(s, perValue, fields[0], fields[1..]);
      assert rows[0] == RowOf(s, perValue, fields[0]) && rows[1..] == RowsOf(s, perValue, fields[1..]);
      RowsOfInsert(s, perValue, fields[0], Sort(fields[1..], FieldOrder(s, perValue)));
    }
  }

  lemma RowShows(s: Screen, perValue: Option<nat>, field: (string, Json))
    ensures var row := RowOf(s, perValue, field);
      && row.key == field.0 && row.size == |row.text| + row.hidden
      && ShowsValue(s, field.1, perValue, row.text, row.hidden)
  {
    var full := Flat(field.1);
    RestoreUndoesNeutralise(s, full);
    if perValue.Some? && perValue.value < |full| { RestoreUndoesNeutralise(s, full[..perValue.value]); }
    assert full[..|full|] == full;
    hide Restore, Neutralised;
  }

  lemma LineShowsRow(s: Screen, row: Row)
    ensures ShowsRow(s, row.key, row, Line(s, row))
  {
    RestoreUndoesNeutralise(s, row.key);
    NoteIsTrue(row.hidden);
    var k, n := Neutralised(s, row.key), Thousands(Digits(row.hidden, 10));
    hide Restore, Neutralised, Thousands, Digits, ValueOf, WithoutCommas;
    if row.hidden > 0 {
      assert " " + ("\U{2026} " + n + " more characters hidden") == " \U{2026} " + n + " more characters hidden";
    }
    assert Line(s, row) == "  " + k + ": " + row.text + (if row.hidden > 0 then " \U{2026} " + n + " more characters hidden" else "");
  }

  lemma RowsList(s: Screen, order: seq<(string, Json)>, perValue: Option<nat>, rows: seq<Row>)
    requires rows == RowsOf(s, perValue, order) && SortedBy(rows, RowLe)
    ensures Lists(s, order, perValue, rows, Lines(s, rows))
  {
    hide Line, RowOf, ShowsRow, ShowsValue, TextLe;
    forall i | 0 <= i < |rows|
      ensures rows[i].key == order[i].0 && ShowsRow(s, order[i].0, rows[i], Lines(s, rows)[i])
      ensures ShowsValue(s, order[i].1, perValue, rows[i].text, rows[i].hidden) && rows[i].size == |rows[i].text| + rows[i].hidden
    {
      RowShows(s, perValue, order[i]);
      LineShowsRow(s, rows[i]);
    }
    forall i, j | 0 <= i < j < |rows|
      ensures rows[i].size < rows[j].size || (rows[i].size == rows[j].size && TextLe(order[i].0, order[j].0))
    {
      assert RowLe(rows[i], rows[j]);
    }
  }

  lemma RowsDescribe(s: Screen, fields: seq<(string, Json)>, perValue: Option<nat>)
    requires s.Sound()
    ensures var rows := Sort(RowsOf(s, perValue, fields), RowLe);
      Describes(s, fields, perValue, Join(Lines(s, rows), "\n"), Hidden(rows))
  {
    hide Line, Join, Split, Sort, Hidden, RowOf, RowLe, RowsOf, TotalLeftOut, FieldOrder, SortedBy, Lists;
    var was, order := RowsOf(s, perValue, fields), Sort(fields, FieldOrder(s, perValue));
    var rows := Sort(was, RowLe);
    SortedRows(was);
    RowsOfSort(s, perValue, fields);
    RowsAreOneLine(s, perValue, fields);
    HiddenIsLeftOut(s, perValue, fields);
    RowsList(s, order, perValue, rows);
    if fields != [] {
      var lines := Lines(s, rows);
      forall p | p in lines ensures '\n' !in p {
        var i :| 0 <= i < |lines| && lines[i] == p;
        assert rows[i] in was;
      }
      SplitUndoesJoin(lines, '\n');
    } else {
      NoLines(s, rows);
    }
  }

  lemma NoLines(s: Screen, rows: seq<Row>)
    requires rows == []
    ensures Join(Lines(s, rows), "\n") == ""
  {
  }

  method DescribeArgs(s: Screen, input: Json, perValue: Option<nat>) returns (text: string, hidden: nat)
    requires s.Sound()
    ensures !input.Object? ==> ShowsValue(s, input, perValue, text, hidden)
    ensures input.Object? ==> Describes(s, input.fields, perValue, text, hidden)
  {
    hide Render, Describes, RowsOf, ShowsValue;
    if input.Object? {
      var rows := Sort(RowsOf(s, perValue, input.fields), RowLe);
      text, hidden := WriteRows(s, rows);
      RowsDescribe(s, input.fields, perValue);
    } else {
      var shown := Render(s, input, perValue);
      text, hidden := shown.0, shown.1;
      RowShows(s, perValue, ("", input));
    }
  }

  method WriteRows(s: Screen, rows: seq<Row>) returns (text: string, hidden: nat)
    ensures text == Join(Lines(s, rows), "\n") && hidden == Hidden(rows)
  {
    hide Lines, Join, Line, Hidden;
    text := "";
    hidden := 0;
    Ends(s, rows);
    for i := 0 to |rows|
      invariant text == Join(Lines(s, rows[..i]), "\n") && (text == "" <==> i == 0)
      invariant hidden + Hidden(rows[i..]) == Hidden(rows)
    {
      AnotherLine(s, rows, i);
      OneLessHidden(rows, i);
      text := WriteRow(s, rows[i], text);
      if rows[i].hidden > 0 {
        hidden := hidden + rows[i].hidden;
      }
    }
  }

  lemma Ends(s: Screen, rows: seq<Row>)
    ensures Join(Lines(s, rows[..0]), "\n") == "" && rows[..|rows|] == rows
    ensures rows[0..] == rows && Hidden(rows[|rows|..]) == 0
  {
  }

  lemma OneLessHidden(rows: seq<Row>, i: nat)
    requires i < |rows|
    ensures Hidden(rows[i..]) == rows[i].hidden + Hidden(rows[i + 1..])
  {
    assert rows[i..][1..] == rows[i + 1..];
  }

  method WriteRow(s: Screen, row: Row, before: string) returns (text: string)
    ensures text == (if before == "" then "" else before + "\n") + Line(s, row)
  {
    text := before;
    if text != "" {
      text := text + "\n";
    }
    ghost var start := text;
    text := text + LineHead(s, row);
    if row.hidden > 0 {
      text := text + (" " + Counted(row.hidden));
      Associate(start, LineHead(s, row), " " + Counted(row.hidden));
    }
  }
}
